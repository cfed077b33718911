/**
 * The registration table's entries ("metas"): what the `<<external>>` macro
 * records about a tiddler kept in a file, and the first-match lookup over a
 * table of them.
 */
module Registry {
  import opened Wrappers
  import opened Host

  /**
   * The macro's parameters as the host's parameter parser delivers them:
   * the first value given for each name, or `None` when the name is absent.
   * `plugin` is already the host's `getFlag` reading of the `plugin` parameter.
   */
  datatype MacroParams = MacroParams(
    tiddler: Option<string>,
    file: Option<string>,
    format: Option<string>,
    plugin: bool,
    keepInternal: Option<string>)

  /** The fields of a meta that never change once it is registered. */
  datatype MetaFields = MetaFields(
    tiddlerName: string,
    fileName: string,
    fileFormat: string,
    isPlugin: bool,
    keepInTW: bool)

  /** JavaScript truthiness of an optional string: present and non-empty. */
  predicate Truthy(v: Option<string>) {
    v.Some? && v.value != ""
  }

  /**
   * The meta that `handler` builds from its parameters, or `None` when there is
   * no tiddler name and nothing is registered.
   */
  function ParseMeta(params: MacroParams): (r: Option<MetaFields>)
    ensures r.None? <==> params.tiddler.None? || params.tiddler.value == ""
    ensures r.Some? ==> r.value.tiddlerName == params.tiddler.value
    ensures r.Some? ==> r.value.fileName == (if params.file.Some? then params.file.value else "")
    ensures r.Some? ==> r.value.fileFormat == (if params.format.Some? then params.format.value else "text")
    ensures r.Some? ==> r.value.isPlugin == params.plugin
    ensures r.Some? ==> (r.value.keepInTW <==>
      params.keepInternal.Some? && params.keepInternal.value != "" && params.keepInternal.value != "false")
  {
    if !Truthy(params.tiddler) then None
    else
      var keepInternal := params.keepInternal;
      Some(MetaFields(
        params.tiddler.value,
        params.file.GetOr(""),
        params.format.GetOr("text"),
        params.plugin,
        Truthy(keepInternal) && keepInternal != Some("false")))
  }

  /** The metas registered by a sequence of macro calls, in order: one per call that names a tiddler. */
  function Registrations(calls: seq<MacroParams>): (r: seq<MetaFields>)
    ensures |r| <= |calls|
    ensures forall f :: f in r ==> f.tiddlerName != ""
  {
    if |calls| == 0 then []
    else
      var last := ParseMeta(calls[|calls| - 1]);
      Registrations(calls[..|calls| - 1]) + (if last.Some? then [last.value] else [])
  }

  /** A registered external tiddler, loaded or not. */
  class Meta {
    const tiddlerName: string
    const fileName: string
    const fileFormat: string
    const isPlugin: bool
    const keepInTW: bool
    /** The tiddler object once it is loaded or found in the store; `null` (or `undefined`) before, and after a delete. */
    var tiddler: Tiddler?

    constructor (f: MetaFields)
      ensures Fields() == f && tiddler == null
    {
      tiddlerName := f.tiddlerName;
      fileName := f.fileName;
      fileFormat := f.fileFormat;
      isPlugin := f.isPlugin;
      keepInTW := f.keepInTW;
      tiddler := null;
    }

    function Fields(): MetaFields {
      MetaFields(tiddlerName, fileName, fileFormat, isPlugin, keepInTW)
    }
  }

  /** The argument of `getMetaFor`: a title (a string) or anything else, compared by identity with `meta.tiddler`. */
  datatype Key = ByTitle(title: string) | ByTiddler(tiddler: Tiddler?)

  predicate Matches(m: Meta, key: Key)
    reads m
  {
    match key
    case ByTitle(title) => m.tiddlerName == title
    case ByTiddler(t) => m.tiddler == t
  }

  /** The index of the first meta that matches `key`, if any. */
  function FirstMatch(metas: seq<Meta>, key: Key): (r: Option<nat>)
    reads metas
    ensures r.Some? ==> r.value < |metas| && Matches(metas[r.value], key)
    ensures r.Some? ==> forall j :: 0 <= j < r.value ==> !Matches(metas[j], key)
    ensures r.None? <==> forall j :: 0 <= j < |metas| ==> !Matches(metas[j], key)
  {
    if |metas| == 0 then None
    else if Matches(metas[0], key) then Some(0)
    else
      match FirstMatch(metas[1..], key)
      case None => None
      case Some(i) => Some(i + 1)
  }

  /**
   * Appending a meta never changes an existing first match: a later duplicate
   * is found only when no earlier meta matches.
   */
  lemma FirstMatchAppend(metas: seq<Meta>, m: Meta, key: Key)
    ensures FirstMatch(metas + [m], key) ==
      if FirstMatch(metas, key).Some? then FirstMatch(metas, key)
      else if Matches(m, key) then Some(|metas|)
      else None
  {
    var all := metas + [m];
    assert forall j :: 0 <= j < |metas| ==> all[j] == metas[j];
    assert all[|metas|] == m;
  }

  /** A lookup by title depends on the titles alone, not on which tiddlers are cached. */
  lemma FirstMatchByTitle(metas: seq<Meta>, title: string, i: nat)
    requires i < |metas| && metas[i].tiddlerName == title
    requires forall j :: 0 <= j < i ==> metas[j].tiddlerName != title
    ensures FirstMatch(metas, ByTitle(title)) == Some(i)
  {
  }
}
