/**
 * The content of the payslip PDF (myapp/views.py:42-327) as data: the
 * ordered page elements that `generate_payslip_pdf` hands to the layout
 * engine, with the cell strings of its tables. Each value of the payslip
 * is taken in the text form `str()` gives it inside the builder's
 * f-strings, and the builder copies that text into the document without
 * any arithmetic.
 */
module PayslipDocument {
  import opened Wrappers
  import opened Strings

  /** The context dictionary passed to the builder, every value in its `str()` form. */
  datatype Payslip = Payslip(
    employeeName: string,
    employeeId: string,
    payPeriod: string,
    paidDays: string,
    lossOfPayDays: string,
    paymentDate: string,
    basicSalary: string,
    incentive: string,
    grossEarnings: string,
    incomeTax: string,
    totalDeduction: string,
    netPayable: string,
    amountInWords: string)

  /** A page element. A `Grid` is a table whose every cell is a string. */
  datatype Flowable =
    | Paragraph(markup: string, style: string)
    | Spacer(width: int, height: int)
    | Image(width: int, height: int, hAlign: string)
    | Grid(cells: seq<seq<string>>, colWidths: seq<int>)
    | Table(rows: seq<seq<Cell>>, colWidths: seq<int>)

  /** A table cell: a string, one element, or a column of elements. */
  datatype Cell = Text(text: string) | Flow(item: Flowable) | Flows(items: seq<Flowable>)

  /** The Indian rupee sign, U+20B9. */
  const Rupee: char := 0x20B9 as char

  const Company := "VETRI IT SYSTEMS PVT LTD."

  /** The widths of the label and amount columns of both money tables. */
  const MoneyColumns: seq<int> := [140, 100]

  /** The amount a money cell shows, if the cell is one. */
  function ParseMoney(cell: string): Option<string>
  {
    if |cell| >= 2 && cell[0] == Rupee && cell[1] == ' ' then Some(cell[2..]) else None
  }

  /**
   * A money cell, `f'{rupee} {amount}'`: reading it gives back exactly the
   * amount written into it, behind the rupee sign and a space.
   */
  function Money(amount: string): (cell: string)
    ensures ParseMoney(cell) == Some(amount)
    ensures |cell| == |amount| + 2
  {
    [Rupee, ' '] + amount
  }

  /** Every string that reads as a money cell is the money cell of what it reads as. */
  lemma MoneyParsedBack(cell: string, amount: string)
    requires ParseMoney(cell) == Some(amount)
    ensures Money(amount) == cell
  {
    assert cell == cell[..2] + cell[2..];
  }

  /** The earnings table of myapp/views.py:133-138. */
  function EarningsData(p: Payslip): (t: seq<seq<string>>)
    ensures |t| == 4 && forall r :: 0 <= r < |t| ==> |t[r]| == 2
    ensures t[0] == ["Earnings", "Amount"]
    ensures [t[1][0], t[2][0], t[3][0]] == ["Basic", "Incentive", "Gross Earnings"]
    ensures ParseMoney(t[1][1]) == Some(p.basicSalary)
    ensures ParseMoney(t[2][1]) == Some(p.incentive)
    ensures ParseMoney(t[3][1]) == Some(p.grossEarnings)
  {
    [ ["Earnings", "Amount"],
      ["Basic", Money(p.basicSalary)],
      ["Incentive", Money(p.incentive)],
      ["Gross Earnings", Money(p.grossEarnings)] ]
  }

  /**
   * The deductions table of myapp/views.py:140-145: one deduction, then an
   * all-blank row so that it has as many rows as the earnings table.
   */
  function DeductionsData(p: Payslip): (t: seq<seq<string>>)
    ensures |t| == 4 && forall r :: 0 <= r < |t| ==> |t[r]| == 2
    ensures t[0] == ["Deduction", "Amount"]
    ensures t[1][0] == "Income Tax" && ParseMoney(t[1][1]) == Some(p.incomeTax)
    ensures t[2] == ["", ""]
    ensures t[3][0] == "Total Deduction" && ParseMoney(t[3][1]) == Some(p.totalDeduction)
  {
    [ ["Deduction", "Amount"],
      ["Income Tax", Money(p.incomeTax)],
      ["", ""],
      ["Total Deduction", Money(p.totalDeduction)] ]
  }

  /** `'_' * 25`: the line to sign on. */
  const SignatureLine: string := "_________________________"

  /**
   * The signature table of myapp/views.py:310-314: two signature lines, the
   * employee's name beside the authorised signatory, and the two captions.
   */
  function SignatureData(p: Payslip): (t: seq<seq<string>>)
    ensures |t| == 3 && forall r :: 0 <= r < |t| ==> |t[r]| == 2
    ensures forall c :: 0 <= c < 2 ==> |t[0][c]| == 25 && forall k :: 0 <= k < 25 ==> t[0][c][k] == '_'
    ensures t[1] == [p.employeeName, "AUTHORISED NAME"]
    ensures t[2] == ["Employee, " + Company, "Managing Director, " + Company]
  {
    [ [SignatureLine, SignatureLine],
      [p.employeeName, "AUTHORISED NAME"],
      ["Employee, " + Company, "Managing Director, " + Company] ]
  }

  const NameLabel := "<b>Employee Name:</b> "
  const IdLabel := "<b>Employee ID:</b> "
  const PeriodLabel := "<b>Pay Period:</b> "
  const PaidDaysLabel := "<b>Paid Days:</b> "
  const LossOfPayLabel := "<b>Loss of Pay Days:</b> "
  const PaymentDateLabel := "<b>Payment Date:</b> "

  /** What separates two details: a line break tag, then the f-string's newline and indentation. */
  const LineBreak := "<br/>\n    "

  /** The newline and indentation that open and close the triple-quoted f-string. */
  const Indent := "\n    "

  /**
   * The employee details paragraph of myapp/views.py:95-102, line breaks
   * and indentation included.
   */
  function EmployeeText(p: Payslip): string
  {
    Indent + NameLabel + p.employeeName +
    LineBreak + IdLabel + p.employeeId +
    LineBreak + PeriodLabel + p.payPeriod +
    LineBreak + PaidDaysLabel + p.paidDays +
    LineBreak + LossOfPayLabel + p.lossOfPayDays +
    LineBreak + PaymentDateLabel + p.paymentDate +
    Indent
  }

  /** The labels of the employee details, in the order they are shown. */
  const EmployeeLabels: seq<string> := [NameLabel, IdLabel, PeriodLabel, PaidDaysLabel, LossOfPayLabel, PaymentDateLabel]

  /** The values shown after those labels. */
  function EmployeeDetails(p: Payslip): seq<string>
  {
    [p.employeeName, p.employeeId, p.payPeriod, p.paidDays, p.lossOfPayDays, p.paymentDate]
  }

  /** The labelled lines of the employee details. */
  function EmployeeLines(p: Payslip): seq<string>
  {
    [ NameLabel + p.employeeName, IdLabel + p.employeeId, PeriodLabel + p.payPeriod,
      PaidDaysLabel + p.paidDays, LossOfPayLabel + p.lossOfPayDays, PaymentDateLabel + p.paymentDate ]
  }

  /** The paragraph is the labelled lines joined by line breaks, between the opening and closing indentation. */
  lemma EmployeeTextIsJoinedLines(p: Payslip)
    ensures EmployeeText(p) == Indent + Join(EmployeeLines(p), LineBreak) + Indent
  {
    var l := EmployeeLines(p);
    JoinSix(Indent, l, LineBreak);
    var t := Indent + l[0];
    assert t == Indent + NameLabel + p.employeeName;
    var u := t;
    t := t + LineBreak + l[1];
    assert t == u + LineBreak + IdLabel + p.employeeId;
    u := t;
    t := t + LineBreak + l[2];
    assert t == u + LineBreak + PeriodLabel + p.payPeriod;
    u := t;
    t := t + LineBreak + l[3];
    assert t == u + LineBreak + PaidDaysLabel + p.paidDays;
    u := t;
    t := t + LineBreak + l[4];
    assert t == u + LineBreak + LossOfPayLabel + p.lossOfPayDays;
    u := t;
    t := t + LineBreak + l[5];
    assert t == u + LineBreak + PaymentDateLabel + p.paymentDate;
  }

  /** Each employee detail is shown right after its own label. */
  lemma EmployeeDetailsShown(p: Payslip, k: nat)
    requires k < 6
    ensures Contains(EmployeeText(p), EmployeeLabels[k] + EmployeeDetails(p)[k])
  {
    var lines := EmployeeLines(p);
    EmployeeTextIsJoinedLines(p);
    var i := JoinHasField(lines, LineBreak, k);
    OccursShift(Indent, Join(lines, LineBreak), Indent, lines[k], i);
    assert lines[k] == EmployeeLabels[k] + EmployeeDetails(p)[k];
  }

  /** The fixed company block under the optional logo. */
  const CompanyText: seq<Flowable> := [
    Paragraph("<b>VETRI IT SYSTEMS PVT LTD.,</b>", "CustomTitle"),
    Paragraph("Shanthi complex, Second floor,", "CustomNormal"),
    Paragraph("Surandai, Tenkasi - 627 859", "CustomNormal"),
    Paragraph("India", "CustomNormal")]

  /** The left header column of myapp/views.py:78-88. */
  function CompanyColumn(logoExists: bool): seq<Flowable>
  {
    (if logoExists then [Image(70, 70, "LEFT"), Spacer(1, 6)] else []) + CompanyText
  }

  /** The right header column of myapp/views.py:91-110. */
  function EmployeeColumn(p: Payslip): seq<Flowable>
  {
    [ Spacer(1, 15),
      Paragraph("<b>Employee Statement</b>", "CustomTitle"),
      Paragraph(EmployeeText(p), "EmployeeDetails") ]
  }

  /** The left cell of the net-payable row: title above subtitle (myapp/views.py:256-268). */
  const NetPayableTitle: Flowable := Table(
    [ [Flow(Paragraph("TOTAL NET PAYABLE", "NetPayableTitle"))],
      [Flow(Paragraph("Gross Earnings - Total Deduction", "NetPayableSubtitle"))] ],
    [200])

  /** The ten elements, in the order myapp/views.py:127-327 appends them. */
  function PayslipElements(p: Payslip, logoExists: bool): seq<Flowable>
  {
    [ Table([[Flows(CompanyColumn(logoExists)), Flows(EmployeeColumn(p))]], [250, 250]),
      Spacer(1, 25),
      Table([[Flow(Grid(EarningsData(p), MoneyColumns)), Flow(Spacer(1, 20)), Flow(Grid(DeductionsData(p), MoneyColumns))]],
            [240, 20, 240]),
      Spacer(1, 30),
      Table([[Flow(NetPayableTitle), Text(Money(p.netPayable))]], [370, 130]),
      Spacer(1, 10),
      Paragraph("<b>Amount in words:</b> " + p.amountInWords, "AmountWords"),
      Spacer(1, 20),
      Paragraph("<b>ACKNOWLEDGED BY,</b>", "SignatureTitle"),
      Grid(SignatureData(p), [240, 240]) ]
  }

  /**
   * `generate_payslip_pdf` up to the call into the layout engine: grow the
   * two header columns and the element list by appending, as
   * myapp/views.py:54-327 does.
   */
  method GeneratePayslip(p: Payslip, logoExists: bool) returns (elements: seq<Flowable>)
    ensures elements == PayslipElements(p, logoExists)
  {
    elements := [];

    var companyInfo: seq<Flowable> := [];
    if logoExists {
      companyInfo := companyInfo + [Image(70, 70, "LEFT")];
      companyInfo := companyInfo + [Spacer(1, 6)];
    }
    companyInfo := companyInfo + [Paragraph("<b>VETRI IT SYSTEMS PVT LTD.,</b>", "CustomTitle")];
    companyInfo := companyInfo + [Paragraph("Shanthi complex, Second floor,", "CustomNormal")];
    companyInfo := companyInfo + [Paragraph("Surandai, Tenkasi - 627 859", "CustomNormal")];
    companyInfo := companyInfo + [Paragraph("India", "CustomNormal")];
    assert companyInfo == CompanyColumn(logoExists);

    var employeeInfo: seq<Flowable> := [];
    employeeInfo := employeeInfo + [Spacer(1, 15)];
    employeeInfo := employeeInfo + [Paragraph("<b>Employee Statement</b>", "CustomTitle")];
    employeeInfo := employeeInfo + [Paragraph(EmployeeText(p), "EmployeeDetails")];
    assert employeeInfo == EmployeeColumn(p);

    var headerTable := Table([[Flows(companyInfo), Flows(employeeInfo)]], [250, 250]);
    elements := elements + [headerTable];
    elements := elements + [Spacer(1, 25)];

    var earningsTable := Grid(EarningsData(p), [140, 100]);
    var deductionsTable := Grid(DeductionsData(p), [140, 100]);
    var combinedTable := Table([[Flow(earningsTable), Flow(Spacer(1, 20)), Flow(deductionsTable)]], [240, 20, 240]);
    elements := elements + [combinedTable];
    elements := elements + [Spacer(1, 30)];

    var leftCell := Table(
      [ [Flow(Paragraph("TOTAL NET PAYABLE", "NetPayableTitle"))],
        [Flow(Paragraph("Gross Earnings - Total Deduction", "NetPayableSubtitle"))] ],
      [200]);
    var netPayableTable := Table([[Flow(leftCell), Text(Money(p.netPayable))]], [370, 130]);
    elements := elements + [netPayableTable];
    elements := elements + [Spacer(1, 10)];

    elements := elements + [Paragraph("<b>Amount in words:</b> " + p.amountInWords, "AmountWords")];
    elements := elements + [Spacer(1, 20)];

    elements := elements + [Paragraph("<b>ACKNOWLEDGED BY,</b>", "SignatureTitle")];
    var signatureTable := Grid(SignatureData(p), [240, 240]);
    elements := elements + [signatureTable];
  }

  /**
   * Exactly ten elements: the header table of the company and employee
   * columns, spacer 25, the earnings and deductions side by side, spacer 30,
   * the net-payable row, spacer 10, the amount in words, spacer 20, the
   * acknowledgement title and the signature table.
   */
  lemma ElementOrder(p: Payslip, logoExists: bool)
    ensures var es := PayslipElements(p, logoExists);
      && |es| == 10
      && es[0] == Table([[Flows(CompanyColumn(logoExists)), Flows(EmployeeColumn(p))]], [250, 250])
      && es[2].Table?
      && es[4] == Table([[Flow(NetPayableTitle), Text(Money(p.netPayable))]], [370, 130])
      && es[9] == Grid(SignatureData(p), [240, 240])
      && es[1] == Spacer(1, 25) && es[3] == Spacer(1, 30) && es[5] == Spacer(1, 10) && es[7] == Spacer(1, 20)
      && es[6].Paragraph? && es[8] == Paragraph("<b>ACKNOWLEDGED BY,</b>", "SignatureTitle")
  {
  }

  /**
   * The amount in words is passed through verbatim: the paragraph is the
   * bold label followed by exactly the caller's text.
   */
  lemma AmountInWordsVerbatim(p: Payslip, logoExists: bool)
    ensures var para := PayslipElements(p, logoExists)[6];
      para.Paragraph? && para.markup[..24] == "<b>Amount in words:</b> " && para.markup[24..] == p.amountInWords
  {
  }

  /**
   * The two money tables side by side have the same number of rows and the
   * same column widths, and each shows its amounts as given.
   */
  lemma MoneyTablesAligned(p: Payslip, logoExists: bool)
    ensures var row := PayslipElements(p, logoExists)[2].rows;
      && |row| == 1 && |row[0]| == 3
      && row[0][0] == Flow(Grid(EarningsData(p), MoneyColumns))
      && row[0][1] == Flow(Spacer(1, 20))
      && row[0][2] == Flow(Grid(DeductionsData(p), MoneyColumns))
      && |EarningsData(p)| == |DeductionsData(p)|
  {
  }

  /** The net-payable amount cell shows the net payable as given, in rupees. */
  lemma NetPayableVerbatim(p: Payslip, logoExists: bool)
    ensures var row := PayslipElements(p, logoExists)[4].rows;
      |row| == 1 && |row[0]| == 2 && row[0][1].Text? && ParseMoney(row[0][1].text) == Some(p.netPayable)
  {
  }

  /**
   * The logo is optional: the company column starts with the logo and a
   * small spacer exactly when the logo file exists, and the four lines of
   * company text are there either way.
   */
  lemma LogoOptional(logoExists: bool)
    ensures var col := CompanyColumn(logoExists);
      && (exists k :: 0 <= k < |col| && col[k].Image?) == logoExists
      && |col| >= 4 && col[|col| - 4..] == CompanyText
  {
    var col := CompanyColumn(logoExists);
    if logoExists {
      assert col[0].Image?;
    } else {
      assert col == CompanyText;
      assert forall k :: 0 <= k < |col| ==> col[k].Paragraph?;
    }
  }

  /**
   * Nothing is lost on the way into the document: two payslips that differ
   * in any money field, in the employee's name or in the amount in words
   * never give the same elements.
   */
  lemma FieldsRecoverable(p: Payslip, q: Payslip, logoExists: bool)
    requires PayslipElements(p, logoExists) == PayslipElements(q, logoExists)
    ensures p.employeeName == q.employeeName && p.amountInWords == q.amountInWords
    ensures p.basicSalary == q.basicSalary && p.incentive == q.incentive && p.grossEarnings == q.grossEarnings
    ensures p.incomeTax == q.incomeTax && p.totalDeduction == q.totalDeduction && p.netPayable == q.netPayable
  {
    var es, fs := PayslipElements(p, logoExists), PayslipElements(q, logoExists);
    assert EarningsData(p) == es[2].rows[0][0].item.cells == EarningsData(q);
    assert DeductionsData(p) == es[2].rows[0][2].item.cells == DeductionsData(q);
    assert Money(p.netPayable) == es[4].rows[0][1].text == Money(q.netPayable);
    assert SignatureData(p) == es[9].cells == SignatureData(q);
    AmountInWordsVerbatim(p, logoExists);
    AmountInWordsVerbatim(q, logoExists);
  }

  /** An example payslip: Asha Rao's for October 2025. */
  const AshaRao := Payslip("Asha Rao", "E100", "1-Oct-2025 to 30-Oct-2025", "30", "0", "2025-10-31",
                           "50000.00", "5000.00", "55000.00", "5000.00", "5000.00", "50000.00",
                           "Fifty Thousand Rupees Only")

  /**
   * Her document shows her name in the signature table, and the gross
   * earnings and the net payable in rupees, as given.
   */
  lemma ExampleAshaRao()
    ensures var es := PayslipElements(AshaRao, false);
      && es[2].rows[0][0].item.cells[3] == ["Gross Earnings", "\U{20B9} 55000.00"]
      && es[4].rows[0][1] == Text("\U{20B9} 50000.00")
      && es[9].cells[1] == ["Asha Rao", "AUTHORISED NAME"]
  {
    var p := AshaRao;
    var es := PayslipElements(p, false);
    assert es[2].rows[0][0].item.cells == EarningsData(p);
    assert es[4].rows[0][1] == Text(Money(p.netPayable));
    assert Money(p.grossEarnings) == "\U{20B9} 55000.00";
    assert Money(p.netPayable) == "\U{20B9} 50000.00";
  }

  /**
   * Her document's header shows her employee details, and they show her
   * name and her ID after their labels.
   */
  lemma ExampleAshaRaoDetails()
    ensures PayslipElements(AshaRao, false)[0].rows[0][1].items[2] == Paragraph(EmployeeText(AshaRao), "EmployeeDetails")
    ensures Contains(EmployeeText(AshaRao), NameLabel + "Asha Rao")
    ensures Contains(EmployeeText(AshaRao), IdLabel + "E100")
  {
    ElementOrder(AshaRao, false);
    EmployeeDetailsShown(AshaRao, 0);
    EmployeeDetailsShown(AshaRao, 1);
  }
}
