/**
 * The emphasis-font fallback run once when the views module is loaded
 * (myapp/views.py:25-40). The file-existence checks and the outcome of each
 * `registerFont` call are inputs; what the fallback decides is the font
 * name of the money tables, the net-payable title and amount, and the
 * signature table's name row, and the set of fonts it has registered with
 * the PDF library by then.
 */
module Fonts {

  const Regular := "DejaVuSans"
  const Bold := "DejaVuSans-Bold"
  const Fallback := "Helvetica-Bold"

  /** The standard fonts the PDF library knows without registration (the ones used here). */
  const BuiltIn: set<string> := {"Helvetica", "Helvetica-Bold"}

  datatype FontSetup = FontSetup(emphasis: string, registered: set<string>)

  /**
   * `regularExists`/`boldExists`: the two font files are on disk.
   * `regularLoads`/`boldLoads`: registering that file would succeed rather
   * than raise. A raise in either registration is caught by the bare
   * `except` and ends in the built-in fallback, so the resolution itself
   * never fails, and the font it names is always usable.
   */
  function ResolveFont(regularExists: bool, boldExists: bool, regularLoads: bool, boldLoads: bool): (r: FontSetup)
    ensures r.emphasis in r.registered || r.emphasis in BuiltIn
    ensures r.emphasis == Bold <==> regularExists && regularLoads && boldExists && boldLoads
    ensures r.emphasis == Regular <==> regularExists && regularLoads && !boldExists
    ensures r.emphasis == Fallback <==>
      !regularExists || !regularLoads || (boldExists && !boldLoads)
    ensures r.registered <= {Regular, Bold}
    ensures Bold in r.registered ==> Regular in r.registered
    ensures Regular in r.registered <==> regularExists && regularLoads
  {
    if !regularExists then
      FontSetup(Fallback, {})
    else if !regularLoads then
      FontSetup(Fallback, {})
    else if !boldExists then
      FontSetup(Regular, {Regular})
    else if !boldLoads then
      FontSetup(Fallback, {Regular})
    else
      FontSetup(Bold, {Regular, Bold})
  }
}
