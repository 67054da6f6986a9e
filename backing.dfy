/**
 * The process-wide registries of src/application/FormBacking.ts: the
 * current form, the view, model and backing object of each application
 * form, and per form its case-insensitive list-of-values and
 * date-constraint tables, auto-generated blocks, links and listeners.
 */
module Backing {
  import opened Wrappers
  import opened Text
  import Public
  import ViewForm

  /** A model-layer form; only the application form it belongs to is part of this model. */
  class ModelForm {
    const parent: Public.Form

    constructor (parent: Public.Form)
      ensures this.parent == parent
    {
      this.parent := parent;
    }
  }

  /** A list of values, compared by identity. */
  datatype ListOfValues = ListOfValues(handle: nat)

  /** A date constraint, compared by identity. */
  datatype DateConstraint = DateConstraint(handle: nat)

  /** A relation key, compared by identity. */
  datatype Key = Key(handle: nat)

  /** A master/detail link as `setLink` records it. */
  datatype Relation = Relation(master: Key, detail: Key, orphanQueries: bool)

  /** The handle of a registered event listener. */
  type Handle = nat

  /** The argument of `setCurrentForm`: an application, view or model form. */
  datatype AnyForm =
    | AppForm(form: Public.Form?)
    | View(view: ViewForm.Form)
    | Model(model: ModelForm)

  /** What a table lookup gives: an entry, `undefined`, or a TypeError. */
  datatype Lookup<T> = Present(value: T) | Undefined | Throws

  /**
   * The table key for a block or field name: lower-cased, with `None`
   * (a null name) giving the `undefined` key.
   */
  function KeyOf(name: Option<string>): (k: Option<string>)
    ensures k.Some? <==> name.Some?
    ensures name.Some? ==> k.value == Lower(name.value) && |k.value| == |name.value| && IsLower(k.value)
  {
    match name
    case None => None
    case Some(s) =>
      LowerIdempotent(s);
      Some(Lower(s))
  }

  /** Two names reach the same table entry exactly when they agree up to case. */
  lemma KeyOfCaseInsensitive(a: string, b: string)
    ensures KeyOf(Some(a)) == KeyOf(Some(b)) <==> Lower(a) == Lower(b)
  {
  }

  /** A table keyed by block, then by field. */
  type Table<V> = map<Option<string>, map<Option<string>, V>>

  /** The entry of a table for a block key and a field key, if any. */
  function Get<V>(t: Table<V>, b: Option<string>, f: Option<string>): (r: Option<V>)
    ensures r.Some? <==> b in t && f in t[b]
  {
    if b in t && f in t[b] then Some(t[b][f]) else None
  }

  /** Adds or replaces one entry, creating the block's table on demand. */
  function Put<V>(t: Table<V>, b: Option<string>, f: Option<string>, v: V): (r: Table<V>)
    ensures r.Keys == t.Keys + {b}
  {
    var entries := if b in t then t[b] else map[];
    t[b := entries[f := v]]
  }

  /**
   * An entry set under a block and field name is found again under any
   * case variant of the two names.
   */
  lemma PutThenGet<V>(t: Table<V>, block: string, field: string, block': string, field': string, v: V)
    requires Lower(block) == Lower(block') && Lower(field) == Lower(field')
    ensures Get(Put(t, KeyOf(Some(block)), KeyOf(Some(field)), v), KeyOf(Some(block')), KeyOf(Some(field'))) == Some(v)
  {
    var b, f := KeyOf(Some(block)), KeyOf(Some(field));
    assert KeyOf(Some(block')) == b && KeyOf(Some(field')) == f;
    var t' := Put(t, b, f, v);
    assert b in t' && f in t'[b] && t'[b][f] == v;
  }

  /**
   * Setting an entry leaves every other entry as it was, in particular the
   * other fields of the same block.
   */
  lemma PutKeepsOthers<V>(t: Table<V>, b: Option<string>, f: Option<string>, v: V, b': Option<string>, f': Option<string>)
    requires b' != b || f' != f
    ensures Get(Put(t, b, f, v), b', f') == Get(t, b', f')
  {
  }

  /** The names of the blocks in `blocks` that belong to `form`. */
  function NamesIn(blocks: seq<Public.Block>, form: Public.Form): set<string> {
    set b | b in blocks && b.form == form :: b.name
  }

  /** The table keys of the blocks in `blocks`. */
  function KeysOf(blocks: seq<Public.Block>): set<Option<string>> {
    set b | b in blocks :: Some(b.name)
  }

  /** The forms owning the blocks in `blocks`. */
  function FormsOf(blocks: seq<Public.Block>): set<Public.Form> {
    set b | b in blocks :: b.form
  }

  /** The per-form backing data. */
  class FormBacking {
    const form: Public.Form
    var links: seq<Relation>
    var listeners: seq<Handle>
    var autoblocks: seq<Public.Block>
    var lovs: map<Option<string>, map<Option<string>, ListOfValues>>
    var datectr: map<Option<string>, map<Option<string>, DateConstraint>>

    constructor (form: Public.Form)
      ensures this.form == form
      ensures links == [] && listeners == [] && autoblocks == [] && lovs == map[] && datectr == map[]
    {
      this.form := form;
      links := [];
      listeners := [];
      autoblocks := [];
      lovs := map[];
      datectr := map[];
    }

    /** `getListOfValues`: the entry for the block and field, compared without case. */
    function GetListOfValues(block: Option<string>, field: Option<string>): (r: Option<ListOfValues>)
      reads this
      ensures r.Some? <==> KeyOf(block) in lovs && KeyOf(field) in lovs[KeyOf(block)]
      ensures r == Get(lovs, KeyOf(block), KeyOf(field))
    {
      Get(lovs, KeyOf(block), KeyOf(field))
    }

    /** `setListOfValues`: adds or replaces one entry, creating the block's table on demand. */
    method SetListOfValues(block: Option<string>, field: Option<string>, lov: ListOfValues)
      modifies this`lovs
      ensures lovs == Put(old(lovs), KeyOf(block), KeyOf(field), lov)
    {
      var b := KeyOf(block);
      var f := KeyOf(field);
      var entries := if b in lovs then lovs[b] else map[];
      lovs := lovs[b := entries[f := lov]];
    }

    /**
     * `getDateConstaing`: the entry for the block and field, compared
     * without case; a block without a table throws.
     */
    function GetDateConstraint(block: Option<string>, field: Option<string>): (r: Lookup<DateConstraint>)
      reads this
      ensures r == Throws <==> KeyOf(block) !in datectr
      ensures r.Present? <==> Get(datectr, KeyOf(block), KeyOf(field)).Some?
      ensures r.Present? ==> Some(r.value) == Get(datectr, KeyOf(block), KeyOf(field))
    {
      var b := KeyOf(block);
      var f := KeyOf(field);
      if b !in datectr then Throws
      else if f in datectr[b] then Present(datectr[b][f])
      else Undefined
    }

    /** `setDateConstaing`: adds or replaces one entry, creating the block's table on demand. */
    method SetDateConstraint(block: Option<string>, field: Option<string>, constr: DateConstraint)
      modifies this`datectr
      ensures datectr == Put(old(datectr), KeyOf(block), KeyOf(field), constr)
    {
      var b := KeyOf(block);
      var f := KeyOf(field);
      var entries := if b in datectr then datectr[b] else map[];
      datectr := datectr[b := entries[f := constr]];
    }

    /** `setAutoGenerated`: remembers a block generated for this form. */
    method SetAutoGenerated(block: Public.Block)
      modifies this`autoblocks
      ensures autoblocks == old(autoblocks) + [block]
    {
      autoblocks := autoblocks + [block];
    }

    /** `setLink`: appends a master/detail relation. */
    method SetLink(master: Key, detail: Key, orphanQueries: bool)
      modifies this`links
      ensures links == old(links) + [Relation(master, detail, orphanQueries)]
    {
      links := links + [Relation(master, detail, orphanQueries)];
    }

    /**
     * `clearAutoGenerated`: for every auto-generated block, drops the
     * tables under its (unlowered) name and its entry in its form's blocks.
     */
    method ClearAutoGenerated()
      modifies this`lovs, this`datectr, FormsOf(autoblocks)
      ensures lovs == old(lovs) - KeysOf(autoblocks)
      ensures datectr == old(datectr) - KeysOf(autoblocks)
      ensures forall f :: f in FormsOf(autoblocks) ==> f.blocks == old(f.blocks) - NamesIn(autoblocks, f)
    {
      var i := 0;
      while i < |autoblocks|
        invariant 0 <= i <= |autoblocks|
        invariant lovs == old(lovs) - KeysOf(autoblocks[..i])
        invariant datectr == old(datectr) - KeysOf(autoblocks[..i])
        invariant forall f :: f in FormsOf(autoblocks) ==> f.blocks == old(f.blocks) - NamesIn(autoblocks[..i], f)
      {
        var block := autoblocks[i];
        assert autoblocks[..i + 1] == autoblocks[..i] + [block];
        lovs := lovs - {Some(block.name)};
        datectr := datectr - {Some(block.name)};
        block.form.blocks := block.form.blocks - {block.name};
        i := i + 1;
      }
      assert autoblocks[..i] == autoblocks;
    }

    /**
     * `hasEventListeners`: false only for a single listener whose filter
     * is on PostViewInit. `filterOf` gives each listener's filter type.
     */
    function HasEventListeners(filterOf: Handle -> Option<Public.EventType>): (r: bool)
      reads this
      ensures !r <==> |listeners| == 1 && filterOf(listeners[0]) == Some(Public.PostViewInit)
    {
      if |listeners| > 1 then true
      else if |listeners| == 0 then true
      else filterOf(listeners[0]) != Some(Public.PostViewInit)
    }

    /**
     * `removeEventListener`: splices out position `indexOf(handle)`, so an
     * absent handle (-1) removes the last listener.
     */
    method RemoveEventListener(handle: Handle)
      modifies this`listeners
      ensures listeners == Spliced(old(listeners), IndexOf(old(listeners), handle))
    {
      var pos := IndexOf(listeners, handle);
      listeners := Spliced(listeners, pos);
    }

    /** `removeAllEventListeners`: empties the list. */
    method RemoveAllEventListeners()
      modifies this`listeners
      ensures listeners == []
    {
      listeners := [];
    }
  }

  /**
   * `Array.prototype.splice(pos, 1)`: removes the element at `pos`, a
   * negative position counting from the end.
   */
  function Spliced<T>(s: seq<T>, pos: int): (r: seq<T>)
    ensures 0 <= pos < |s| ==> r == s[..pos] + s[pos + 1..]
    ensures -|s| <= pos < 0 ==> r == s[..|s| + pos] + s[|s| + pos + 1..]
    ensures pos >= |s| || s == [] ==> r == s
  {
    var start := if pos < 0 then (if |s| + pos < 0 then 0 else |s| + pos) else (if pos > |s| then |s| else pos);
    if start < |s| then s[..start] + s[start + 1..] else s
  }

  /** Removing a registered handle removes exactly one occurrence of it, its first. */
  lemma RemovePresentListener(listeners: seq<Handle>, handle: Handle)
    requires handle in listeners
    ensures var r := Spliced(listeners, IndexOf(listeners, handle));
      |r| == |listeners| - 1 && multiset(r) == multiset(listeners) - multiset{handle}
  {
    var i := IndexOf(listeners, handle);
    assert 0 <= i < |listeners| && listeners[i] == handle;
    assert Spliced(listeners, i) == listeners[..i] + listeners[i + 1..];
    RemoveAt(listeners, i);
  }

  /** Removing position `i` takes one copy of its element out of the multiset. */
  lemma RemoveAt<T>(s: seq<T>, i: int)
    requires 0 <= i < |s|
    ensures |s[..i] + s[i + 1..]| == |s| - 1
    ensures multiset(s[..i] + s[i + 1..]) == multiset(s) - multiset{s[i]}
  {
    assert s == s[..i] + [s[i]] + s[i + 1..];
    assert multiset(s) == multiset(s[..i]) + multiset{s[i]} + multiset(s[i + 1..]);
  }

  /** Removing a handle that is not registered removes the last listener instead. */
  lemma RemoveAbsentListener(listeners: seq<Handle>, handle: Handle)
    requires handle !in listeners && listeners != []
    ensures Spliced(listeners, IndexOf(listeners, handle)) == listeners[..|listeners| - 1]
  {
  }

  /** The static part of FormBacking: the current form and the three registries. */
  class Registry {
    var form: Public.Form?
    var vforms: map<Public.Form, ViewForm.Form>
    var mforms: map<Public.Form, ModelForm>
    var bdata: map<Public.Form, FormBacking>

    constructor ()
      ensures form == null && vforms == map[] && mforms == map[] && bdata == map[]
    {
      form := null;
      vforms := map[];
      mforms := map[];
      bdata := map[];
    }

    /** `getCurrentForm`. */
    function GetCurrentForm(): (r: Public.Form?)
      reads this
      ensures r == form
    {
      form
    }

    /** `setCurrentForm`: a view or model form stands for its application form. */
    method SetCurrentForm(f: AnyForm)
      modifies this`form
      ensures form == match f
                      case AppForm(p) => p
                      case View(v) => v.parent
                      case Model(m) => m.parent
    {
      match f
      case View(v) => form := v.parent;
      case Model(m) => form := m.parent;
      case AppForm(p) => form := p;
    }

    /** `getBacking`. */
    function GetBacking(f: Public.Form): (r: Option<FormBacking>)
      reads this
      ensures r.Some? <==> f in bdata
      ensures r.Some? ==> r.value == bdata[f]
    {
      if f in bdata then Some(bdata[f]) else None
    }

    /** `setBacking`: registers a new, empty backing for the form. */
    method SetBacking(f: Public.Form) returns (back: FormBacking)
      modifies this`bdata
      ensures fresh(back) && back.form == f && back.listeners == [] && back.autoblocks == []
      ensures back.links == [] && back.lovs == map[] && back.datectr == map[]
      ensures bdata == old(bdata)[f := back]
    {
      back := new FormBacking(f);
      bdata := bdata[f := back];
    }

    /** The objects `cleanup` of `f` may change. */
    function CleanupFrame(f: Public.Form): set<object>
      reads this, bdata.Values
    {
      if f in bdata then {bdata[f]} + FormsOf(bdata[f].autoblocks) else {}
    }

    /**
     * `cleanup`: forgets the form's model and view, clears its
     * auto-generated blocks and its listeners. A form without backing
     * throws after its model and view have been forgotten.
     */
    method Cleanup(f: Public.Form) returns (thrown: bool)
      modifies this`mforms, this`vforms, CleanupFrame(f)
      ensures mforms == old(mforms) - {f} && vforms == old(vforms) - {f}
      ensures thrown <==> f !in bdata
      ensures !thrown ==> bdata[f].listeners == [] &&
                          bdata[f].lovs == old(bdata[f].lovs) - KeysOf(old(bdata[f].autoblocks)) &&
                          bdata[f].datectr == old(bdata[f].datectr) - KeysOf(old(bdata[f].autoblocks))
      ensures !thrown ==> bdata[f].autoblocks == old(bdata[f].autoblocks) && bdata[f].links == old(bdata[f].links)
      ensures !thrown ==> forall g :: g in FormsOf(old(bdata[f].autoblocks)) ==>
                            g.blocks == old(g.blocks) - NamesIn(old(bdata[f].autoblocks), g)
    {
      mforms := mforms - {f};
      vforms := vforms - {f};
      if f !in bdata {
        return true;
      }
      var back := bdata[f];
      back.ClearAutoGenerated();
      back.RemoveAllEventListeners();
      thrown := false;
    }

    /**
     * `removeBacking`: cleans up, forgets the backing and clears the
     * current form when it was the removed one.
     */
    method RemoveBacking(f: Public.Form) returns (thrown: bool)
      modifies this`mforms, this`vforms, this`bdata, this`form, CleanupFrame(f)
      ensures thrown <==> f !in old(bdata)
      ensures mforms == old(mforms) - {f} && vforms == old(vforms) - {f}
      ensures !thrown ==> bdata == old(bdata) - {f} && old(bdata)[f].listeners == []
      ensures !thrown ==> old(bdata)[f].lovs == old(bdata[f].lovs) - KeysOf(old(bdata[f].autoblocks)) &&
                          old(bdata)[f].datectr == old(bdata[f].datectr) - KeysOf(old(bdata[f].autoblocks))
      ensures !thrown ==> old(bdata)[f].autoblocks == old(bdata[f].autoblocks) && old(bdata)[f].links == old(bdata[f].links)
      ensures !thrown ==> forall g :: g in FormsOf(old(bdata[f].autoblocks)) ==>
                            g.blocks == old(g.blocks) - NamesIn(old(bdata[f].autoblocks), g)
      ensures !thrown ==> (form == null <==> old(form) == f || old(form) == null)
      ensures !thrown && old(form) != f ==> form == old(form)
      ensures thrown ==> bdata == old(bdata) && form == old(form)
    {
      thrown := Cleanup(f);
      if thrown {
        return;
      }
      bdata := bdata - {f};
      if f == form {
        form := null;
      }
    }
  }
}
