/** `renderer.table`: the markdown renderer's table rule, overridden to emit
    a Bootstrap-styled table around the header and body the renderer has
    already produced. */
module MarkdownTable {
  import opened Text

  const Open: string := "<table class=\"table\"><thead>"
  const Middle: string := "</thead><tbody>"
  const Close: string := "</tbody></table>"

  /** The table markup. Its sections can be read back: the header sits right
      after the opening tags, the body right before the closing ones, and
      nothing else is added. */
  function Table(thead: string, tbody: string): (r: string)
    ensures StartsWith(r, Open)
    ensures |r| == |thead| + |tbody| + |Open| + |Middle| + |Close|
    ensures r[|Open|..|Open| + |thead|] == thead
    ensures r[|Open| + |thead|..|Open| + |thead| + |Middle|] == Middle
    ensures r[|r| - |Close| - |tbody|..|r| - |Close|] == tbody
    ensures r[|r| - |Close|..] == Close
  {
    Open + thead + Middle + tbody + Close
  }
}
