/**
 * The host wiki's side of the picture: tiddlers and the store that holds them.
 * These are collaborators of the plugin, not part of it; only what the plugin
 * reads or writes is modelled.
 */
module Host {
  import opened Wrappers

  /**
   * The fields of a tiddler that the plugin reads or writes. An empty
   * `creator` or `modifier` stands for an unset (null or empty) one.
   */
  datatype TiddlerValue = TiddlerValue(
    title: string,
    text: string,
    tags: seq<string>,
    creator: string,
    modifier: string,
    doNotSave: bool)

  /** What `new Tiddler(title)` holds before anything is set on it. */
  function NewTiddlerValue(title: string): TiddlerValue {
    TiddlerValue(title, "", [], "", "", false)
  }

  /** A tiddler object; the plugin mutates it in place. */
  class Tiddler {
    const title: string
    var text: string
    var tags: seq<string>
    var creator: string
    var modifier: string
    var doNotSave: bool

    constructor (title: string)
      ensures Value() == NewTiddlerValue(title)
    {
      this.title := title;
      text := "";
      tags := [];
      creator := "";
      modifier := "";
      doNotSave := false;
    }

    function Value(): TiddlerValue
      reads this
    {
      TiddlerValue(title, text, tags, creator, modifier, doNotSave)
    }
  }

  /** The host's `Array.prototype.pushUnique`: append unless already present. */
  function PushUnique(tags: seq<string>, tag: string): (r: seq<string>)
    ensures tag in r
    ensures tag in tags ==> r == tags
    ensures tag !in tags ==> r == tags + [tag] && multiset(r)[tag] == 1
  {
    if tag in tags then tags else tags + [tag]
  }

  /** The wiki store: tiddlers by title, and a count of the host's own saves. */
  class Store {
    var tiddlers: map<string, Tiddler>
    var saves: nat

    /** Every tiddler is filed under its own title. */
    ghost predicate Valid()
      reads this
    {
      forall k :: k in tiddlers ==> tiddlers[k].title == k
    }

    constructor ()
      ensures Valid() && tiddlers == map[] && saves == 0
    {
      tiddlers := map[];
      saves := 0;
    }

    /** `store.fetchTiddler(title)`. */
    function FetchTiddler(title: string): (r: Option<Tiddler>)
      reads this
      ensures r.Some? <==> title in tiddlers
      ensures r.Some? ==> r.value == tiddlers[title]
    {
      if title in tiddlers then Some(tiddlers[title]) else None
    }

    /** The fields of the tiddler filed under `title`, or of a new one if there is none. */
    ghost function Prior(title: string): TiddlerValue
      reads this, if title in tiddlers then {tiddlers[title]} else {}
    {
      if title in tiddlers then tiddlers[title].Value() else NewTiddlerValue(title)
    }

    /** `store.addTiddler(t)`: file `t` under its title, replacing what was there. */
    method AddTiddler(t: Tiddler)
      modifies this
      ensures tiddlers == old(tiddlers)[t.title := t] && saves == old(saves)
    {
      tiddlers := tiddlers[t.title := t];
    }

    /** The host's own `deleteTiddler(title)`. */
    method DeleteTiddler(title: string)
      modifies this
      ensures tiddlers == old(tiddlers) - {title} && saves == old(saves)
    {
      tiddlers := tiddlers - {title};
    }

    /** The host's own `saveChanges`: persisting the wiki document itself. */
    method SaveChanges()
      modifies this
      ensures tiddlers == old(tiddlers) && saves == old(saves) + 1
    {
      saves := saves + 1;
    }
  }

  /** The tiddler object filed under `title`, as a frame. */
  function Existing(store: Store, title: string): set<object>
    reads store
  {
    if title in store.tiddlers then {store.tiddlers[title]} else {}
  }
}
