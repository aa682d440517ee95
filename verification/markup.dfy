/** Markdown to HTML conversion of note fields (parser.py convert_to_html; the class-style
    code calls the same conversion as convert_md_to_html). The markdown library itself is a
    parameter: any function from markdown text to HTML text. */
module Markup {

  /** What converting the fields gives: each field rendered, in order. */
  function Rendered(md: string -> string, fields: seq<string>): (html: seq<string>)
    ensures |html| == |fields|
  {
    if fields == [] then [] else Rendered(md, fields[..|fields| - 1]) + [md(fields[|fields| - 1])]
  }

  lemma {:induction false} RenderedAt(md: string -> string, fields: seq<string>, i: nat)
    requires i < |fields|
    ensures Rendered(md, fields)[i] == md(fields[i])
  {
    if i < |fields| - 1 {
      RenderedAt(md, fields[..|fields| - 1], i);
    }
  }

  /** The conversion loop: one HTML field per markdown field, in the same order. */
  method ConvertToHtml(md: string -> string, mdFields: seq<string>) returns (htmlFields: seq<string>)
    ensures |htmlFields| == |mdFields|
    ensures forall i :: 0 <= i < |mdFields| ==> htmlFields[i] == md(mdFields[i])
    ensures htmlFields == Rendered(md, mdFields)
  {
    htmlFields := [];
    var n := 0;
    while n < |mdFields|
      invariant 0 <= n <= |mdFields|
      invariant htmlFields == Rendered(md, mdFields[..n])
      invariant forall i :: 0 <= i < n ==> htmlFields[i] == md(mdFields[i])
    {
      assert mdFields[..n + 1][..n] == mdFields[..n];
      htmlFields := htmlFields + [md(mdFields[n])];
      n := n + 1;
    }
    assert mdFields[..n] == mdFields;
  }
}
