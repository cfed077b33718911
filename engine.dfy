/**
 * The synchronisation engine, `config.macros.external`: the registration
 * table, loading files into tiddlers on startup, writing tiddlers back to
 * files when the wiki is saved, and the hooks on the host's save and delete.
 */
module Engine {
  import opened Wrappers
  import opened Host
  import opened Paths
  import opened Formats
  import opened Registry

  /**
   * One call of the host's `saveFile`: the full path, before the host turns it
   * into a local file path, and the content, `None` where the source passes
   * `undefined` (a format that is not registered).
   */
  datatype FileWrite = FileWrite(path: string, content: Option<string>)

  /**
   * How a completed request ended: the request failed, the format is unknown
   * (the source then hands `undefined` on to `store.addTiddler`), or the tiddler
   * was loaded.
   */
  datatype LoadOutcome = NotLoaded | NoFormat | Loaded

  /** `getExtension(meta)`: the registered format's extension, or nothing for an unknown format. */
  function GetExtension(meta: MetaFields): (r: Option<string>)
    ensures r.None? <==> FileFormats(meta.fileFormat).None?
    ensures r.Some? ==> r.value != "" && r.value[0] != '.' && '/' !in r.value
  {
    match FileFormats(meta.fileFormat)
    case None => None
    case Some(format) => Some(format.Extension())
  }

  /** What string concatenation makes of the extension: `undefined` becomes the text "undefined". */
  function ExtensionText(extension: Option<string>): string {
    match extension
    case Some(e) => e
    case None => "undefined"
  }

  /** The full path of a meta's file, as both `loadExternal` and `saveExternal` compute it. */
  function FullPath(meta: MetaFields, location: string): string {
    GetFullPath(meta.fileName, meta.tiddlerName, ExtensionText(GetExtension(meta)), location)
  }

  /**
   * The file name a meta resolves to: its own `file:` name, completed with the
   * format's extension or with the tiddler name's last segment (a '/' in the
   * tiddler name makes a sub-folder). For an unknown format the extension is
   * the text "undefined".
   */
  lemma MetaFileName(meta: MetaFields, location: string)
    ensures var own := FileName(meta.fileName);
      var extension := if FileFormats(meta.fileFormat).Some? then FileFormats(meta.fileFormat).value.Extension() else "undefined";
      FileName(FullPath(meta, location)) ==
        if own == "" then FileName(meta.tiddlerName) + "." + extension
        else if '.' in own then own
        else own + "." + extension
  {
    var extension := ExtensionText(GetExtension(meta));
    assert '/' !in extension by {
      if GetExtension(meta).None? {
        assert extension == "undefined";
      }
    }
    CompletedFileName(meta.fileName, meta.tiddlerName, extension);
    FullPathResolution(meta.fileName, meta.tiddlerName, extension, location);
  }

  /**
   * `externalizeTiddler(meta)`, which looks only at the meta's format name and
   * its tiddler: the file content, or nothing for an unknown format.
   */
  function ExternalizeTiddler(fileFormat: string, tiddler: Option<TiddlerValue>): (r: Option<string>)
    requires FileFormats(fileFormat).Some? ==> tiddler.Some?
    ensures r.None? <==> FileFormats(fileFormat).None?
    ensures r.Some? ==> r.value == tiddler.value.text
  {
    match FileFormats(fileFormat)
    case None => None
    case Some(format) => Some(format.Externalize(tiddler.value))
  }

  /**
   * The completion rule of `loadExternal`'s request. A `status` of 0 stands
   * for an absent (falsy) status, which under `file:` means the file was read.
   */
  predicate LoadSucceeded(status: int, protocol: string) {
    (status == 0 && protocol == "file:") || (200 <= status < 300) || status == 304
  }

  /**
   * What loading a plugin does to its tiddler: tag it `systemConfig` and, when
   * the Author slice has a value, fill in an unset creator from it and an unset
   * modifier from the (new) creator.
   */
  function AsPlugin(t: TiddlerValue, author: string): (r: TiddlerValue)
    ensures r.(tags := t.tags, creator := t.creator, modifier := t.modifier) == t
    ensures "systemConfig" in r.tags && r.tags == PushUnique(t.tags, "systemConfig")
    ensures multiset(t.tags)["systemConfig"] <= 1 ==> multiset(r.tags)["systemConfig"] == 1
    ensures t.creator != "" || author == "" ==> r.creator == t.creator
    ensures t.creator == "" && author != "" ==> r.creator == author
    ensures t.modifier != "" || author == "" ==> r.modifier == t.modifier
    ensures t.modifier == "" && author != "" ==> r.modifier == r.creator
  {
    var tagged := t.(tags := PushUnique(t.tags, "systemConfig"));
    if author == "" then tagged
    else
      var creator := if tagged.creator != "" then tagged.creator else author;
      tagged.(creator := creator, modifier := if tagged.modifier != "" then tagged.modifier else creator)
  }

  /**
   * The tiddler after a successful load of `source` under `format`: the text
   * read in, `doNotSave` set from `keepInTW`, and a plugin made to look like
   * one. Externalizing it gives `source` back.
   */
  function AfterLoad(format: Format, prior: TiddlerValue, meta: MetaFields, source: string, author: string): (r: TiddlerValue)
    ensures format.Externalize(r) == source
    ensures r.title == prior.title && r.doNotSave == !meta.keepInTW
    ensures !meta.isPlugin ==> r == prior.(text := source, doNotSave := !meta.keepInTW)
    ensures meta.isPlugin ==> r == AsPlugin(prior.(text := source, doNotSave := !meta.keepInTW), author)
  {
    var internalized := format.Internalize(prior, source).(doNotSave := !meta.keepInTW);
    if meta.isPlugin then AsPlugin(internalized, author) else internalized
  }

  /** The tiddler `saveAll` ends up with on a meta: the cached one, else the store's tiddler of that name. */
  function Resolved(cached: Tiddler?, title: string, tiddlers: map<string, Tiddler>): Tiddler?
  {
    if cached != null then cached
    else if title in tiddlers then tiddlers[title]
    else null
  }

  /** The value of a tiddler object, or nothing for `null`. */
  function Snapshot(t: Tiddler?): (r: Option<TiddlerValue>)
    reads t
    ensures r.Some? <==> t != null
  {
    if t == null then None else Some(t.Value())
  }

  /**
   * The file `saveExternal` writes for a tiddler saved to `path` in
   * `fileFormat`: none when there is no tiddler to save or the path is not
   * local, else the externalized tiddler at that path.
   */
  function WriteFor(path: string, fileFormat: string, tiddler: Option<TiddlerValue>): (r: Option<FileWrite>)
    ensures r.Some? <==> tiddler.Some? && IsLocalAbsolutePath(path)
    ensures r.Some? ==> r.value.path == path && r.value.content == ExternalizeTiddler(fileFormat, tiddler)
  {
    if tiddler.Some? && IsLocalAbsolutePath(path) then Some(FileWrite(path, ExternalizeTiddler(fileFormat, tiddler))) else None
  }

  /** Reading a saved file back into the tiddler it was written from leaves that tiddler as it was. */
  lemma SaveThenLoad(path: string, fileFormat: string, t: TiddlerValue)
    requires FileFormats(fileFormat).Some? && IsLocalAbsolutePath(path)
    ensures var w := WriteFor(path, fileFormat, Some(t));
      && w.Some? && w.value.path == path && w.value.content.Some?
      && FileFormats(fileFormat).value.Internalize(t, w.value.content.value) == t
  {
  }

  /** Saving a tiddler just loaded from `source` writes `source` back, whatever the tiddler held before. */
  lemma LoadThenSave(path: string, meta: MetaFields, prior: TiddlerValue, source: string, author: string)
    requires FileFormats(meta.fileFormat).Some? && IsLocalAbsolutePath(path)
    ensures var loaded := AfterLoad(FileFormats(meta.fileFormat).value, prior, meta, source, author);
      WriteFor(path, meta.fileFormat, Some(loaded)) == Some(FileWrite(path, Some(source)))
  {
  }

  /** `config.macros.external`: the engine and its registration table. */
  class External {
    const listName: string
    /** Registered metas, in registration order; duplicates of a name are kept. */
    var tiddlersMeta: seq<Meta>

    /** Each meta object is registered once (`handler` always registers a new one); names may repeat. */
    ghost predicate Valid()
      reads this
    {
      forall i, j :: 0 <= i < j < |tiddlersMeta| ==> tiddlersMeta[i] != tiddlersMeta[j]
    }

    constructor ()
      ensures Valid() && tiddlersMeta == [] && listName == "ExternalTiddlersList"
    {
      listName := "ExternalTiddlersList";
      tiddlersMeta := [];
    }

    /** `registerExternal(meta)`: append, without looking for an entry of the same name. */
    method RegisterExternal(meta: Meta)
      requires Valid() && meta !in tiddlersMeta
      modifies this
      ensures Valid()
      ensures tiddlersMeta == old(tiddlersMeta) + [meta]
    {
      tiddlersMeta := tiddlersMeta + [meta];
    }

    /** `handler`, as far as it registers: build a meta from the macro's parameters and register it. */
    method Handler(params: MacroParams)
      requires Valid()
      modifies this
      ensures Valid()
      ensures ParseMeta(params).None? ==> tiddlersMeta == old(tiddlersMeta)
      ensures ParseMeta(params).Some? ==>
        && |tiddlersMeta| == |old(tiddlersMeta)| + 1
        && tiddlersMeta[..|old(tiddlersMeta)|] == old(tiddlersMeta)
        && fresh(tiddlersMeta[|old(tiddlersMeta)|])
        && tiddlersMeta[|old(tiddlersMeta)|].Fields() == ParseMeta(params).value
        && tiddlersMeta[|old(tiddlersMeta)|].tiddler == null
    {
      var fields := ParseMeta(params);
      if fields.None? {
        return;
      }
      var meta := new Meta(fields.value);
      RegisterExternal(meta);
    }

    /** `getMetaFor(tiddlerOrTitle)`: the first meta with that name, or whose cached tiddler is that object. */
    method GetMetaFor(key: Key) returns (r: Meta?)
      ensures FirstMatch(tiddlersMeta, key).None? ==> r == null
      ensures FirstMatch(tiddlersMeta, key).Some? ==> r == tiddlersMeta[FirstMatch(tiddlersMeta, key).value]
    {
      var isTitle := key.ByTitle?;
      var i := 0;
      while i < |tiddlersMeta|
        invariant 0 <= i <= |tiddlersMeta|
        invariant forall j :: 0 <= j < i ==> !Matches(tiddlersMeta[j], key)
      {
        var meta := tiddlersMeta[i];
        if (isTitle && meta.tiddlerName == key.title) || (!isTitle && meta.tiddler == key.tiddler) {
          return meta;
        }
        i := i + 1;
      }
      return null;
    }

    /**
     * `internalizeTiddler(meta, source)`: read `source` into the store's tiddler
     * of that name, or into a new one, mark it `doNotSave` unless `keepInTW`, and
     * cache it on the meta. An unknown format changes nothing.
     */
    method InternalizeTiddler(meta: Meta, source: string, store: Store) returns (t: Tiddler?)
      requires store.Valid()
      modifies meta, Existing(store, meta.tiddlerName)
      ensures FileFormats(meta.fileFormat).None? ==>
        t == null && unchanged(meta) && unchanged(Existing(store, meta.tiddlerName))
      ensures FileFormats(meta.fileFormat).Some? ==>
        && t != null && meta.tiddler == t && t.title == meta.tiddlerName
        && (meta.tiddlerName in store.tiddlers ==> t == store.tiddlers[meta.tiddlerName])
        && (meta.tiddlerName !in store.tiddlers ==> fresh(t))
        && t.Value() == FileFormats(meta.fileFormat).value.Internalize(old(store.Prior(meta.tiddlerName)), source).(doNotSave := !meta.keepInTW)
    {
      var format := FileFormats(meta.fileFormat);
      if format.None? {
        return null;
      }
      var found := store.FetchTiddler(meta.tiddlerName);
      if found.Some? {
        t := found.value;
      } else {
        t := new Tiddler(meta.tiddlerName);
      }
      format.value.InternalizeInto(t, source);
      t.doNotSave := !meta.keepInTW;
      meta.tiddler := t;
    }

    /**
     * `onExternalTiddlerLoad(success, meta, responseText)`: on success, internalize
     * the text and add the tiddler to the store; for a plugin, tag it and fill in
     * its author. `author` is the value of the tiddler's Author slice.
     */
    method OnExternalTiddlerLoad(success: bool, meta: Meta, responseText: string, store: Store, author: string)
      returns (outcome: LoadOutcome)
      requires store.Valid()
      modifies store, meta, Existing(store, meta.tiddlerName)
      ensures store.Valid()
      ensures outcome == NotLoaded <==> !success
      ensures outcome == NoFormat <==> success && FileFormats(meta.fileFormat).None?
      ensures outcome != Loaded ==>
        unchanged(store, meta) && unchanged(Existing(store, meta.tiddlerName))
      ensures outcome == Loaded ==>
        && meta.tiddler != null
        && store.tiddlers == old(store.tiddlers)[meta.tiddlerName := meta.tiddler]
        && store.saves == old(store.saves)
        && (meta.tiddlerName in old(store.tiddlers) ==> meta.tiddler == old(store.tiddlers[meta.tiddlerName]))
        && (meta.tiddlerName !in old(store.tiddlers) ==> fresh(meta.tiddler))
        && meta.tiddler.Value() == AfterLoad(FileFormats(meta.fileFormat).value, old(store.Prior(meta.tiddlerName)), meta.Fields(), responseText, author)
    {
      if !success {
        return NotLoaded;
      }
      ghost var prior := store.Prior(meta.tiddlerName);
      var t := InternalizeTiddler(meta, responseText, store);
      if t == null {
        return NoFormat;
      }
      store.AddTiddler(t);
      if meta.isPlugin {
        MakePluginLook(t, author);
      }
      assert t.Value() == AfterLoad(FileFormats(meta.fileFormat).value, prior, meta.Fields(), responseText, author);
      outcome := Loaded;
    }

    /** The plugin branch of `onExternalTiddlerLoad`, in place on the loaded tiddler. */
    method MakePluginLook(t: Tiddler, author: string)
      modifies t
      ensures t.Value() == AsPlugin(old(t.Value()), author)
    {
      t.tags := PushUnique(t.tags, "systemConfig");
      if author != "" {
        t.creator := if t.creator != "" then t.creator else author;
        t.modifier := if t.modifier != "" then t.modifier else t.creator;
      }
    }

    /** `loadExternal(meta)`: the GET request it issues goes to the meta's full path. */
    method LoadExternal(meta: Meta, location: string) returns (path: string)
      ensures path == FullPath(meta.Fields(), location)
    {
      path := GetFullPath(meta.fileName, meta.tiddlerName, ExtensionText(GetExtension(meta.Fields())), location);
    }

    /**
     * The request's completion callback: decide success from the status and
     * the page's protocol, then hand over to `onExternalTiddlerLoad`.
     */
    method OnLoadComplete(meta: Meta, status: int, protocol: string, responseText: string, store: Store, author: string)
      returns (outcome: LoadOutcome)
      requires store.Valid()
      modifies store, meta, Existing(store, meta.tiddlerName)
      ensures store.Valid()
      ensures outcome == NotLoaded <==> !LoadSucceeded(status, protocol)
      ensures outcome == Loaded <==> LoadSucceeded(status, protocol) && FileFormats(meta.fileFormat).Some?
      ensures outcome != Loaded ==>
        unchanged(store, meta) && unchanged(Existing(store, meta.tiddlerName))
      ensures outcome == Loaded ==>
        && meta.tiddler != null
        && store.tiddlers == old(store.tiddlers)[meta.tiddlerName := meta.tiddler]
        && store.saves == old(store.saves)
        && (meta.tiddlerName in old(store.tiddlers) ==> meta.tiddler == old(store.tiddlers[meta.tiddlerName]))
        && (meta.tiddlerName !in old(store.tiddlers) ==> fresh(meta.tiddler))
        && meta.tiddler.Value() == AfterLoad(FileFormats(meta.fileFormat).value, old(store.Prior(meta.tiddlerName)), meta.Fields(), responseText, author)
    {
      outcome := OnExternalTiddlerLoad(LoadSucceeded(status, protocol), meta, responseText, store, author);
    }

    /**
     * What wikifying the list tiddler does here: each `<<external>>` macro in
     * it (`calls`, in order) runs `handler`.
     */
    method Wikify(calls: seq<MacroParams>)
      requires Valid()
      modifies this
      ensures Valid()
      ensures |tiddlersMeta| == |old(tiddlersMeta)| + |Registrations(calls)|
      ensures tiddlersMeta[..|old(tiddlersMeta)|] == old(tiddlersMeta)
      ensures forall k :: |old(tiddlersMeta)| <= k < |tiddlersMeta| ==>
        fresh(tiddlersMeta[k]) && tiddlersMeta[k].tiddler == null &&
        tiddlersMeta[k].Fields() == Registrations(calls)[k - |old(tiddlersMeta)|]
    {
      var i := 0;
      while i < |calls|
        invariant 0 <= i <= |calls|
        invariant Valid()
        invariant |tiddlersMeta| == |old(tiddlersMeta)| + |Registrations(calls[..i])|
        invariant tiddlersMeta[..|old(tiddlersMeta)|] == old(tiddlersMeta)
        invariant forall k :: |old(tiddlersMeta)| <= k < |tiddlersMeta| ==>
          fresh(tiddlersMeta[k]) && tiddlersMeta[k].tiddler == null &&
          tiddlersMeta[k].Fields() == Registrations(calls[..i])[k - |old(tiddlersMeta)|]
      {
        assert calls[..i + 1][..i] == calls[..i];
        Handler(calls[i]);
        i := i + 1;
      }
      assert calls[..|calls|] == calls;
    }

    /**
     * `init`: when the list tiddler exists and has text, its `<<external>>`
     * macros (`calls`, in order) register their metas; then one request is
     * issued per registered meta. The requested paths are returned.
     */
    method Init(store: Store, calls: seq<MacroParams>, location: string) returns (requests: seq<string>)
      requires Valid()
      modifies this
      ensures Valid()
      ensures !ListConfigured(store, listName) ==> tiddlersMeta == old(tiddlersMeta) && requests == []
      ensures ListConfigured(store, listName) ==>
        && |tiddlersMeta| == |old(tiddlersMeta)| + |Registrations(calls)|
        && tiddlersMeta[..|old(tiddlersMeta)|] == old(tiddlersMeta)
        && (forall k :: |old(tiddlersMeta)| <= k < |tiddlersMeta| ==>
              fresh(tiddlersMeta[k]) && tiddlersMeta[k].tiddler == null &&
              tiddlersMeta[k].Fields() == Registrations(calls)[k - |old(tiddlersMeta)|])
        && |requests| == |tiddlersMeta|
        && (forall k :: 0 <= k < |requests| ==> requests[k] == FullPath(tiddlersMeta[k].Fields(), location))
    {
      if !ListConfigured(store, listName) {
        return [];
      }
      Wikify(calls);
      requests := LoadAll(location);
    }

    /** The loop at the end of `init`: one `loadExternal` per registered meta, in table order. */
    method LoadAll(location: string) returns (requests: seq<string>)
      ensures |requests| == |tiddlersMeta|
      ensures forall k :: 0 <= k < |requests| ==> requests[k] == FullPath(tiddlersMeta[k].Fields(), location)
    {
      requests := [];
      for j := 0 to |tiddlersMeta|
        invariant |requests| == j
        invariant forall k :: 0 <= k < j ==> requests[k] == FullPath(tiddlersMeta[k].Fields(), location)
      {
        var path := LoadExternal(tiddlersMeta[j], location);
        requests := requests + [path];
      }
    }

    /**
     * `saveExternal(meta)`: write the externalized tiddler to the meta's path
     * when that path is local, and nothing otherwise. The source function
     * returns no value; `result` is that falsy `undefined`.
     */
    method SaveExternal(meta: Meta, location: string) returns (result: bool, written: Option<FileWrite>)
      requires IsLocalAbsolutePath(FullPath(meta.Fields(), location)) && FileFormats(meta.fileFormat).Some? ==> meta.tiddler != null
      ensures !result
      ensures !IsLocalAbsolutePath(FullPath(meta.Fields(), location)) ==> written == None
      ensures IsLocalAbsolutePath(FullPath(meta.Fields(), location)) ==>
        written == Some(FileWrite(FullPath(meta.Fields(), location), ExternalizeTiddler(meta.fileFormat, Snapshot(meta.tiddler))))
    {
      var fullPath := GetFullPath(meta.fileName, meta.tiddlerName, ExtensionText(GetExtension(meta.Fields())), location);
      if !IsLocalAbsolutePath(fullPath) {
        return false, None;
      }
      var contentToSave := ExternalizeTiddler(meta.fileFormat, Snapshot(meta.tiddler));
      written := Some(FileWrite(fullPath, contentToSave));
      result := false;
    }

    /**
     * `saveAll`: for each meta, cache the store's tiddler if none is cached yet,
     * skip the meta if there is still none, and otherwise save it. `written[k]`
     * is the file written for the k-th meta, if any. The result is true exactly
     * when no meta reached `saveExternal`.
     */
    method SaveAll(store: Store, location: string) returns (ok: bool, written: seq<Option<FileWrite>>)
      requires Valid()
      modifies tiddlersMeta
      ensures forall k :: 0 <= k < |tiddlersMeta| ==>
        tiddlersMeta[k].tiddler == Resolved(old(tiddlersMeta[k].tiddler), tiddlersMeta[k].tiddlerName, old(store.tiddlers))
      ensures |written| == |tiddlersMeta|
      ensures forall k :: 0 <= k < |tiddlersMeta| ==>
        written[k] == WriteFor(FullPath(tiddlersMeta[k].Fields(), location), tiddlersMeta[k].fileFormat,
                               old(Snapshot(Resolved(tiddlersMeta[k].tiddler, tiddlersMeta[k].tiddlerName, store.tiddlers))))
      ensures ok <==> forall k :: 0 <= k < |tiddlersMeta| ==> tiddlersMeta[k].tiddler == null
    {
      ok := true;
      written := [];
      var metas := tiddlersMeta;
      var i := 0;
      while i < |metas|
        invariant 0 <= i <= |metas| && |written| == i
        invariant forall k :: 0 <= k < i ==> metas[k].tiddler == Resolved(old(metas[k].tiddler), metas[k].tiddlerName, store.tiddlers)
        invariant forall k :: i <= k < |metas| ==> metas[k].tiddler == old(metas[k].tiddler)
        invariant forall k :: 0 <= k < i ==>
          written[k] == WriteFor(FullPath(metas[k].Fields(), location), metas[k].fileFormat,
                                 old(Snapshot(Resolved(metas[k].tiddler, metas[k].tiddlerName, store.tiddlers))))
        invariant ok <==> forall k :: 0 <= k < i ==> metas[k].tiddler == null
      {
        var meta := metas[i];
        assert forall k :: 0 <= k < |metas| && k != i ==> metas[k] != meta;
        var saved, w := SaveEntry(meta, store, location, old(Snapshot(Resolved(meta.tiddler, meta.tiddlerName, store.tiddlers))));
        if saved.Some? {
          ok := saved.value && ok;
        }
        written := written + [w];
        i := i + 1;
      }
    }

    /**
     * One pass of the `saveAll` loop: cache the store's tiddler on `meta` if it
     * has none, then save it; `saved` is `None` when the meta is skipped
     * (`continue`), else the value `saveExternal` returned. `value` is the
     * tiddler's value, which saving leaves as it is.
     */
    method SaveEntry(meta: Meta, store: Store, location: string, ghost value: Option<TiddlerValue>)
      returns (saved: Option<bool>, written: Option<FileWrite>)
      requires value == Snapshot(Resolved(meta.tiddler, meta.tiddlerName, store.tiddlers))
      modifies meta
      ensures meta.tiddler == Resolved(old(meta.tiddler), meta.tiddlerName, store.tiddlers)
      ensures saved.None? <==> meta.tiddler == null
      ensures saved.Some? ==> !saved.value
      ensures written == WriteFor(FullPath(meta.Fields(), location), meta.fileFormat, value)
    {
      if meta.tiddler == null {
        var tiddlerInStore := store.FetchTiddler(meta.tiddlerName);
        if tiddlerInStore.None? {
          return None, None;
        }
        meta.tiddler := tiddlerInStore.value;
      }
      var result;
      result, written := SaveExternal(meta, location);
      saved := Some(result);
    }

    /** The wrapped `saveChanges`: save every external tiddler, then run the host's own save regardless. */
    method SaveChanges(store: Store, location: string) returns (written: seq<Option<FileWrite>>)
      requires Valid()
      modifies tiddlersMeta, store
      ensures forall k :: 0 <= k < |tiddlersMeta| ==> tiddlersMeta[k].tiddler == Resolved(old(tiddlersMeta[k].tiddler), tiddlersMeta[k].tiddlerName, old(store.tiddlers))
      ensures |written| == |tiddlersMeta|
      ensures forall k :: 0 <= k < |tiddlersMeta| ==>
        written[k] == WriteFor(FullPath(tiddlersMeta[k].Fields(), location), tiddlersMeta[k].fileFormat,
                               old(Snapshot(Resolved(tiddlersMeta[k].tiddler, tiddlersMeta[k].tiddlerName, store.tiddlers))))
      ensures store.tiddlers == old(store.tiddlers) && store.saves == old(store.saves) + 1
    {
      var ok;
      ok, written := SaveAll(store, location);
      store.SaveChanges();
    }

    /**
     * The wrapped `store.deleteTiddler(title)`: clear the cached tiddler of the
     * first meta of that name, then run the host's own delete regardless.
     */
    method DeleteTiddler(store: Store, title: string)
      requires Valid()
      modifies tiddlersMeta, store
      ensures var first := old(FirstMatch(tiddlersMeta, ByTitle(title)));
        && (first.Some? ==> tiddlersMeta[first.value].tiddler == null)
        && (forall k :: 0 <= k < |tiddlersMeta| && (first.None? || k != first.value) ==>
              tiddlersMeta[k].tiddler == old(tiddlersMeta[k].tiddler))
      ensures FirstMatch(tiddlersMeta, ByTitle(title)) == old(FirstMatch(tiddlersMeta, ByTitle(title)))
      ensures store.tiddlers == old(store.tiddlers) - {title} && store.saves == old(store.saves)
    {
      ghost var first := FirstMatch(tiddlersMeta, ByTitle(title));
      var registeredMeta := GetMetaFor(ByTitle(title));
      if registeredMeta != null {
        registeredMeta.tiddler := null;
      }
      store.DeleteTiddler(title);
      if first.Some? {
        FirstMatchByTitle(tiddlersMeta, title, first.value);
      }
    }
  }

  /** The list tiddler exists and has text, so `init` goes on to register and load. */
  predicate ListConfigured(store: Store, listName: string)
    reads store, store.tiddlers.Values
  {
    listName in store.tiddlers && store.tiddlers[listName].text != ""
  }

  /**
   * A registered tiddler absent from the store is loaded from `Foo.txt` in the
   * document's folder, and ends up in the store with the file's text and marked
   * not to be saved into the wiki document.
   */
  method LoadScenario(location: string) {
    var store := new Store();
    var engine := new External();
    engine.Handler(MacroParams(Some("Foo"), None, None, false, None));
    var meta := engine.tiddlersMeta[0];
    var path := engine.LoadExternal(meta, location);
    ResolveEmptySpec(location);
    assert path == Base(location) + "Foo.txt";
    var outcome := engine.OnLoadComplete(meta, 200, "http:", "bar", store, "");
    assert outcome == Loaded;
    assert "Foo" in store.tiddlers;
    assert store.tiddlers["Foo"].text == "bar" && store.tiddlers["Foo"].doNotSave;
  }

  /** Registering a name twice keeps both metas; lookup by name finds the first. */
  method DuplicateScenario() {
    var engine := new External();
    engine.Handler(MacroParams(Some("Foo"), None, None, false, None));
    engine.Handler(MacroParams(Some("Foo"), Some("other"), None, false, None));
    assert |engine.tiddlersMeta| == 2;
    assert engine.tiddlersMeta[0].fileName == "" && engine.tiddlersMeta[1].fileName == "other";
    var found := engine.GetMetaFor(ByTitle("Foo"));
    assert found == engine.tiddlersMeta[0];
  }
  /**
   * Deleting a tiddler registered twice, with both registrations caching it,
   * clears only the first registration: the second keeps the cached tiddler
   * and is now the one found for it.
   */
  method DeleteDuplicateScenario(engine: External, store: Store, t: Tiddler)
    requires engine.Valid() && |engine.tiddlersMeta| == 2
    requires engine.tiddlersMeta[0].tiddlerName == t.title && engine.tiddlersMeta[0].tiddler == t
    requires engine.tiddlersMeta[1].tiddlerName == t.title && engine.tiddlersMeta[1].tiddler == t
    modifies engine.tiddlersMeta, store
  {
    var first, second := engine.tiddlersMeta[0], engine.tiddlersMeta[1];
    engine.DeleteTiddler(store, t.title);
    assert first.tiddler == null && second.tiddler == t;
    assert t.title !in store.tiddlers;
    var found := engine.GetMetaFor(ByTiddler(t));
    assert found == second;
  }

  /**
   * The save after that delete: the cleared registration has nothing to
   * write, while the second still writes the deleted tiddler's text to its
   * file.
   */
  method SaveAfterDeleteScenario(engine: External, store: Store, t: Tiddler, location: string)
    requires engine.Valid() && |engine.tiddlersMeta| == 2
    requires engine.tiddlersMeta[0].tiddlerName == t.title && engine.tiddlersMeta[0].tiddler == null
    requires engine.tiddlersMeta[1].Fields() == MetaFields(t.title, "/w/MyPlugin.js", "text", false, false)
    requires engine.tiddlersMeta[1].tiddler == t
    requires t.title !in store.tiddlers
    modifies engine.tiddlersMeta
  {
    var second := engine.tiddlersMeta[1];
    ghost var cached := Snapshot(t);
    var ok, written := engine.SaveAll(store, location);
    assert !ok && written[0] == None;
    assert written[1] == WriteFor(FullPath(second.Fields(), location), second.fileFormat, cached);
    ResolveAbsoluteWithExtension(t.title, location);
    assert IsLocalAbsolutePath("/w/MyPlugin.js");
    assert written[1] == Some(FileWrite("/w/MyPlugin.js", Some(t.text)));
  }
}
