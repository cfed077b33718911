/**
 * The format registry (`fileFormats`): for each format, the file extension and
 * the pair of conversions between a tiddler and the text of its file.
 */
module Formats {
  import opened Wrappers
  import opened Host

  /** The registered formats. Only `text` is part of this model. */
  datatype Format = Text {

    /** The extension of a file in this format, without the leading dot. */
    function Extension(): (e: string)
      ensures e != "" && e[0] != '.' && '/' !in e
    {
      match this
      case Text => "txt"
    }

    /** The file's content for a tiddler: for `text`, the tiddler's text verbatim. */
    function Externalize(t: TiddlerValue): string {
      match this
      case Text => t.text
    }

    /**
     * The tiddler after reading `source` into it. It extends the tiddler rather
     * than rebuilding it: every field but the text is kept, and externalizing the
     * result gives `source` back.
     */
    function Internalize(t: TiddlerValue, source: string): (r: TiddlerValue)
      ensures r.(text := t.text) == t
      ensures Externalize(r) == source
    {
      match this
      case Text => t.(text := source)
    }

    /** `format.internalize(tiddler, source)`: the same, in place on a tiddler object. */
    method InternalizeInto(t: Tiddler, source: string)
      modifies t
      ensures t.Value() == Internalize(old(t.Value()), source)
    {
      match this
      case Text => t.text := source;
    }
  }

  /** `fileFormats[name]`: the format registered under `name`, if any. */
  function FileFormats(name: string): (r: Option<Format>)
    ensures r.Some? <==> name == "text"
  {
    if name == "text" then Some(Text) else None
  }
}
