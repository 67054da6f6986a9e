/**
 * The view-side form of src/view/Form.ts: the registry of view forms by
 * their application form, the process-wide current form, the focused field
 * instance, and `goto`, which moves the focus only after an ordered chain of
 * lifecycle triggers has passed.
 */
module ViewForm {
  import opened Wrappers
  import Public
  import ViewBlock

  /**
   * A rendered occurrence of a field: its element, the name of its block,
   * its row (-1 for the overlay row), the field's name and its slot among
   * the field's instances in that row.
   */
  datatype Instance = Instance(element: nat, block: string, row: int, name: string, entry: nat)

  /** The events a view form raises, as FormEvent builds them. */
  datatype Event =
    | FormEvent(kind: Public.EventType, form: Public.Form)
    | BlockEvent(kind: Public.EventType, form: Public.Form, block: string)
    | FieldEvent(kind: Public.EventType, inst: Instance)

  /**
   * `FormEvents.raise` as an oracle: the i-th event raised during one
   * navigation gets `answers[i]`; past the end of `answers` no listener
   * vetoes.
   */
  function Answer(answers: seq<bool>, i: nat): bool {
    if i < |answers| then answers[i] else true
  }

  /** The first of the raised events `i`..`n`-1 that a listener vetoes, if any. */
  function FirstVeto(answers: seq<bool>, i: nat, n: nat): (r: Option<nat>)
    requires i <= n
    decreases n - i
    ensures r.Some? ==> i <= r.value < n && !Answer(answers, r.value)
    ensures r.Some? ==> forall j :: i <= j < r.value ==> Answer(answers, j)
    ensures r.None? <==> forall j :: i <= j < n ==> Answer(answers, j)
  {
    if i == n then None
    else if !Answer(answers, i) then Some(i)
    else FirstVeto(answers, i + 1, n)
  }

  /** The events actually raised when `plan` is raised in order: up to and including the first veto. */
  function Raised(plan: seq<Event>, answers: seq<bool>): seq<Event> {
    match FirstVeto(answers, 0, |plan|)
    case Some(v) => plan[..v + 1]
    case None => plan
  }

  function Opt(e: Option<Event>): seq<Event> {
    match e
    case Some(x) => [x]
    case None => []
  }

  /** `preForm`: passes without raising when the form is already current. */
  function PreFormEvent(form: Public.Form, current: Public.Form?): Option<Event> {
    if form == current then None else Some(FormEvent(Public.PreForm, form))
  }

  /** `preBlock`: passes without raising when the block is the focused instance's block. */
  function PreBlockEvent(parent: Public.Form, block: string, focused: string): Option<Event> {
    if block == focused then None else Some(BlockEvent(Public.PreBlock, parent, block))
  }

  /**
   * `postBlock`: passes without raising when both blocks are the same;
   * otherwise it raises, as the source does, a PreBlock event for the block
   * being left.
   */
  function PostBlockEvent(parent: Public.Form, preblock: string, nxtblock: string): Option<Event> {
    if preblock == nxtblock then None else Some(BlockEvent(Public.PreBlock, parent, preblock))
  }

  /** `preRecord`: passes without raising when the record does not change. */
  function PreRecordEvent(parent: Public.Form, block: string, prec: int, nrec: int): Option<Event> {
    if nrec == prec then None else Some(BlockEvent(Public.PreRecord, parent, block))
  }

  /** `postRecord`: passes without raising for a move within the same record of the same block. */
  function PostRecordEvent(parent: Public.Form, preblock: string, nxtblock: string, offset: int): Option<Event> {
    if offset == 0 && preblock == nxtblock then None
    else Some(BlockEvent(Public.PostRecord, parent, preblock))
  }

  /** The part of `goto` that leaves the current form and enters `parent`. */
  function FormPhase(parent: Public.Form, current: Public.Form?): seq<Event> {
    if parent == current then []
    else (if current != null then [FormEvent(Public.PostForm, current)] else [])
         + Opt(PreFormEvent(parent, current))
  }

  /** The part of `goto` that leaves the current record and block and enters the new ones. */
  function BlockPhase(parent: Public.Form, preblock: string, nxtblock: string,
                      offset: int, prerec: int, nxtrec: int): seq<Event>
  {
    Opt(PostRecordEvent(parent, preblock, nxtblock, offset))
    + Opt(PostBlockEvent(parent, preblock, nxtblock))
    + Opt(PreBlockEvent(parent, nxtblock, preblock))
    + Opt(PreRecordEvent(parent, nxtblock, prerec, nxtrec))
  }

  /**
   * Every event `goto` would raise if no listener vetoed, in the order it
   * raises them: leave form, enter form, leave record, leave block, enter
   * block, enter record.
   */
  function GotoPlan(parent: Public.Form, current: Public.Form?, preblock: string, nxtblock: string,
                    offset: int, prerec: int, nxtrec: int): seq<Event>
  {
    FormPhase(parent, current) + BlockPhase(parent, preblock, nxtblock, offset, prerec, nxtrec)
  }

  /** How a call to `goto` ends: focus moved, vetoed (false), or a TypeError. */
  datatype GotoOutcome = Moved | Vetoed | Thrown

  /** What `getInstance` gives back: an instance, `undefined`, or a TypeError. */
  datatype Lookup = Found(inst: Instance) | Undefined | LookupThrown

  /**
   * A layout in which the instances listed for (block, row, field) are that
   * field's instances in that row, each at its own slot.
   */
  ghost predicate WellFormedLayout(fieldAt: (string, int, string) -> Option<seq<Instance>>) {
    forall b, r, n :: fieldAt(b, r, n).Some? ==>
      forall e :: 0 <= e < |fieldAt(b, r, n).value| ==>
        fieldAt(b, r, n).value[e] == fieldAt(b, r, n).value[e].(block := b, row := r, name := n, entry := e)
  }

  /** The static part of the view Form class: the view of each application form, and the current form. */
  class Registry {
    var views: map<Public.Form, Form>
    var current: Public.Form?

    constructor ()
      ensures views == map[] && current == null
    {
      views := map[];
      current := null;
    }

    /** Each view is registered under its own application form. */
    ghost predicate Valid()
      reads this
    {
      forall p :: p in views ==> views[p].parent == p
    }

    /** `Form.getForm`: the registered view of `parent`, created and registered when there is none. */
    method GetForm(parent: Public.Form) returns (f: Form)
      requires Valid()
      modifies this`views
      ensures Valid()
      ensures f.parent == parent && parent in views && views[parent] == f
      ensures parent in old(views) ==> views == old(views) && f == old(views)[parent]
      ensures parent !in old(views) ==> views == old(views)[parent := f] && fresh(f)
      ensures fresh(f) ==> f.curinst == None && f.instances == map[] && f.blocks == map[]
    {
      if parent in views {
        f := views[parent];
      } else {
        f := new Form(this, parent);
      }
    }

    /** `Form.drop`: forgets the view of `parent` and registers a new, empty one. */
    method Drop(parent: Public.Form)
      requires Valid()
      modifies this`views
      ensures Valid()
      ensures parent in views && fresh(views[parent])
      ensures views == old(views)[parent := views[parent]]
      ensures views[parent].curinst == None && views[parent].instances == map[]
    {
      views := views - {parent};
      var f := GetForm(parent);
    }
  }

  class Form {
    const parent: Public.Form
    var curinst: Option<Instance>
    var instances: map<nat, Instance>
    var blocks: map<string, ViewBlock.Block>

    /** The private constructor: a new view registers itself under its application form. */
    constructor (registry: Registry, parent: Public.Form)
      requires registry.Valid()
      modifies registry`views
      ensures this.parent == parent && curinst == None && instances == map[] && blocks == map[]
      ensures registry.views == old(registry.views)[parent := this]
      ensures registry.Valid()
    {
      this.parent := parent;
      curinst := None;
      instances := map[];
      blocks := map[];
      new;
      registry.views := registry.views[parent := this];
    }

    /** `addBlock`: stores the block under its (lower-case) name. */
    method AddBlock(block: ViewBlock.Block)
      modifies this`blocks
      ensures blocks == old(blocks)[block.name := block]
    {
      blocks := blocks[block.name := block];
    }

    /** `addInstance`: indexes the instance by its element. */
    method AddInstance(inst: Instance)
      modifies this`instances
      ensures instances == old(instances)[inst.element := inst]
    {
      instances := instances[inst.element := inst];
    }

    /** `deleteInstance`: forgets the instance's element. */
    method DeleteInstance(inst: Instance)
      modifies this`instances
      ensures instances == old(instances) - {inst.element}
    {
      instances := instances - {inst.element};
    }

    /** `reindexInstance`: forgets element `fr`, then indexes the instance by its own element. */
    method ReindexInstance(fr: nat, inst: Instance)
      modifies this`instances
      ensures instances == (old(instances) - {fr})[inst.element := inst]
      ensures fr != inst.element ==> fr !in instances
      ensures inst.element in instances && instances[inst.element] == inst
    {
      instances := instances - {fr};
      AddInstance(inst);
    }

    /**
     * `getInstance`: the instance of an element. An instance on a list row
     * other than its block's current row is exchanged for the instance in
     * the same slot of the same field on the current row. `currentRow` gives
     * each block's current row number and `fieldAt` the instances of a field
     * in a row (the block's rows are not part of this function).
     */
    function GetInstance(elem: nat, currentRow: string -> int,
                         fieldAt: (string, int, string) -> Option<seq<Instance>>): (r: Lookup)
      reads this
      ensures elem !in instances ==> r == LookupThrown
      ensures elem in instances && (instances[elem].row < 0 || instances[elem].row == currentRow(instances[elem].block)) ==>
                r == Found(instances[elem])
      ensures WellFormedLayout(fieldAt) && r.Found? && elem in instances ==>
                var inst := instances[elem];
                r.inst.block == inst.block && r.inst.name == inst.name && r.inst.entry == inst.entry &&
                (r.inst.row < 0 || r.inst.row == currentRow(inst.block))
    {
      if elem !in instances then LookupThrown
      else
        var inst := instances[elem];
        var cur := currentRow(inst.block);
        if inst.row >= 0 && inst.row != cur then
          match fieldAt(inst.block, cur, inst.name)
          case None => LookupThrown
          case Some(others) => if inst.entry < |others| then Found(others[inst.entry]) else Undefined
        else Found(inst)
    }

    /**
     * `validate`: true when nothing is focused; otherwise whether the
     * focused block's model is validated (`validated` stands for
     * `block.model.validated`). `None`: the focused block is not registered
     * and the source dereferences an undefined block.
     */
    function Validate(validated: string -> bool): (r: Option<bool>)
      reads this
      ensures curinst.None? ==> r == Some(true)
      ensures curinst.Some? ==> (r.Some? <==> curinst.value.block in blocks)
      ensures r == Some(false) ==> curinst.Some? && !validated(curinst.value.block)
      ensures curinst.Some? && r.Some? ==> r.value == validated(curinst.value.block)
    {
      if curinst.None? then Some(true)
      else if curinst.value.block !in blocks then None
      else Some(validated(curinst.value.block))
    }

    /** `postField`: raises, as the source does, a PostRecord event for the instance. */
    method PostField(inst: Instance, answers: seq<bool>) returns (ok: bool, raised: seq<Event>)
      ensures raised == [FieldEvent(Public.PostRecord, inst)]
      ensures ok == Answer(answers, 0)
    {
      raised := [FieldEvent(Public.PostRecord, inst)];
      ok := Answer(answers, 0);
    }

    /**
     * `goto`: moves the focus to `inst` in this form. `offset` stands for
     * `nxtblock.offset(inst)` and `record` for each block's
     * `model.record`; `answers` is the trigger oracle. The focus and the
     * current form change only when every raised event passed; otherwise
     * `goto` returns at the first veto. With nothing focused yet the source
     * dereferences a null block before raising anything.
     */
    method Goto(registry: Registry, inst: Instance, offset: int, record: string -> int, answers: seq<bool>)
      returns (outcome: GotoOutcome, raised: seq<Event>)
      requires registry.Valid()
      modifies this`curinst, registry`views, registry`current
      ensures registry.Valid()
      ensures outcome == Thrown <==> old(curinst).None?
      ensures outcome == Thrown ==> raised == [] && registry.views == old(registry.views)
      ensures outcome != Thrown ==>
                var plan := GotoPlan(parent, old(registry.current), old(curinst).value.block, inst.block,
                                     offset, record(old(curinst).value.block), record(inst.block) + offset);
                raised == Raised(plan, answers) &&
                (outcome == Moved <==> FirstVeto(answers, 0, |plan|).None?)
      ensures outcome == Moved ==> curinst == Some(inst) && registry.current == parent
      ensures outcome != Moved ==> curinst == old(curinst) && registry.current == old(registry.current)
      ensures registry.views == old(registry.views) ||
              (old(registry.current) != null && old(registry.current) !in old(registry.views) &&
               old(registry.current) in registry.views &&
               registry.views == old(registry.views)[old(registry.current) := registry.views[old(registry.current)]])
    {
      raised := [];
      if curinst.None? {
        return Thrown, [];
      }
      var nxtblock := inst.block;
      var preblock := curinst.value.block;
      var prerec := record(preblock);
      var nxtrec := record(nxtblock) + offset;
      ghost var t1 := BlockPhase(parent, preblock, nxtblock, offset, prerec, nxtrec);
      ghost var plan := GotoPlan(parent, registry.current, preblock, nxtblock, offset, prerec, nxtrec);
      assert plan == FormPhase(parent, registry.current) + t1;
      ghost var rest := plan;
      var pass: bool;

      pass, raised, rest := LeaveAndEnterForm(registry, parent, answers, plan, t1);
      if !pass {
        return Vetoed, raised;
      }
      pass, raised, rest := LeaveAndEnterBlock(parent, preblock, nxtblock, offset, prerec, nxtrec,
                                               answers, plan, raised, rest);
      if !pass {
        return Vetoed, raised;
      }
      AllPassed(plan, answers);
      curinst := Some(inst);
      registry.current := parent;
      return Moved, raised;
    }
  }

  /**
   * The form part of `goto`: when this form is not the current one, raises
   * PostForm for the current form (registering a view for it when it has
   * none) and PreForm for this one.
   */
  method LeaveAndEnterForm(registry: Registry, parent: Public.Form, answers: seq<bool>, ghost plan: seq<Event>, ghost tail: seq<Event>)
    returns (pass: bool, raised: seq<Event>, ghost rest: seq<Event>)
    requires registry.Valid()
    requires plan == FormPhase(parent, registry.current) + tail
    modifies registry`views
    ensures registry.Valid()
    ensures raised + rest == plan
    ensures pass ==> rest == tail && forall j :: 0 <= j < |raised| ==> Answer(answers, j)
    ensures !pass ==> raised == Raised(plan, answers) && FirstVeto(answers, 0, |plan|).Some?
    ensures registry.views == old(registry.views) ||
            (registry.current != null && registry.current !in old(registry.views) && registry.current in registry.views &&
             registry.views == old(registry.views)[registry.current := registry.views[registry.current]])
  {
    raised, rest := [], plan;
    pass := true;
    if parent != registry.current {
      if registry.current != null {
        var preform := registry.GetForm(registry.current);
        pass, raised, rest := Fire(plan, answers, raised, rest, FormEvent(Public.PostForm, registry.current));
        if !pass {
          return;
        }
      }
      pass, raised, rest := Fire(plan, answers, raised, rest, FormEvent(Public.PreForm, parent));
    }
  }

  /**
   * The record and block part of `goto`: PostRecord and PostBlock for what
   * is left, then PreBlock and PreRecord for what is entered, each only
   * when its trigger helper does not pass without raising.
   */
  method LeaveAndEnterBlock(parent: Public.Form, preblock: string, nxtblock: string, offset: int, prerec: int, nxtrec: int,
                            answers: seq<bool>, ghost plan: seq<Event>, raised: seq<Event>, ghost rest: seq<Event>)
    returns (pass: bool, raised': seq<Event>, ghost rest': seq<Event>)
    requires raised + rest == plan && rest == BlockPhase(parent, preblock, nxtblock, offset, prerec, nxtrec)
    requires forall j :: 0 <= j < |raised| ==> Answer(answers, j)
    ensures raised' + rest' == plan
    ensures pass ==> rest' == [] && forall j :: 0 <= j < |raised'| ==> Answer(answers, j)
    ensures !pass ==> raised' == Raised(plan, answers) && FirstVeto(answers, 0, |plan|).Some?
  {
    ghost var t4 := Opt(PreRecordEvent(parent, nxtblock, prerec, nxtrec));
    ghost var t3 := Opt(PreBlockEvent(parent, nxtblock, preblock)) + t4;
    ghost var t2 := Opt(PostBlockEvent(parent, preblock, nxtblock)) + t3;
    assert rest == Opt(PostRecordEvent(parent, preblock, nxtblock, offset)) + t2;
    pass, raised', rest' := true, raised, rest;
    if !(offset == 0 && preblock == nxtblock) {
      pass, raised', rest' := Fire(plan, answers, raised', rest', BlockEvent(Public.PostRecord, parent, preblock));
      if !pass {
        return;
      }
    }
    assert rest' == t2;
    if preblock != nxtblock {
      pass, raised', rest' := Fire(plan, answers, raised', rest', BlockEvent(Public.PreBlock, parent, preblock));
      if !pass {
        return;
      }
    }
    assert rest' == t3;
    if nxtblock != preblock {
      pass, raised', rest' := Fire(plan, answers, raised', rest', BlockEvent(Public.PreBlock, parent, nxtblock));
      if !pass {
        return;
      }
    }
    assert rest' == t4;
    if nxtrec != prerec {
      pass, raised', rest' := Fire(plan, answers, raised', rest', BlockEvent(Public.PreRecord, parent, nxtblock));
    }
  }

  /**
   * Raises the next planned event `e`. `raised` are the events raised so
   * far, all of which passed, and `rest` those still planned.
   */
  method Fire(ghost plan: seq<Event>, answers: seq<bool>, raised: seq<Event>, ghost rest: seq<Event>, e: Event)
    returns (pass: bool, raised': seq<Event>, ghost rest': seq<Event>)
    requires raised + rest == plan && rest != [] && rest[0] == e
    requires forall j :: 0 <= j < |raised| ==> Answer(answers, j)
    ensures raised' == raised + [e] && rest' == rest[1..] && raised' + rest' == plan
    ensures pass <==> Answer(answers, |raised|)
    ensures pass ==> forall j :: 0 <= j < |raised'| ==> Answer(answers, j)
    ensures !pass ==> raised' == Raised(plan, answers) && FirstVeto(answers, 0, |plan|).Some?
  {
    pass := Answer(answers, |raised|);
    raised' := raised + [e];
    rest' := rest[1..];
    assert raised' + rest' == plan by {
      assert rest == [e] + rest';
    }
    if !pass {
      FirstVetoAt(plan, answers, |raised|);
    }
  }

  /** A veto at event `k` after `k` passing events ends the raising there. */
  lemma FirstVetoAt(plan: seq<Event>, answers: seq<bool>, k: nat)
    requires k < |plan| && !Answer(answers, k)
    requires forall j :: 0 <= j < k ==> Answer(answers, j)
    ensures FirstVeto(answers, 0, |plan|) == Some(k)
    ensures Raised(plan, answers) == plan[..k + 1]
  {
  }

  /** When every planned event passed, all of them were raised. */
  lemma AllPassed(plan: seq<Event>, answers: seq<bool>)
    requires forall j :: 0 <= j < |plan| ==> Answer(answers, j)
    ensures FirstVeto(answers, 0, |plan|).None? && Raised(plan, answers) == plan
  {
  }

  /**
   * The raised events are a prefix of the plan: all of them passed except
   * possibly the last, and when that one was vetoed nothing after it was
   * raised.
   */
  lemma RaisedIsVetoPrefix(plan: seq<Event>, answers: seq<bool>)
    ensures var r := Raised(plan, answers);
      |r| <= |plan| && r == plan[..|r|] &&
      (forall j :: 0 <= j < |r| - 1 ==> Answer(answers, j)) &&
      (|r| < |plan| ==> |r| > 0 && !Answer(answers, |r| - 1)) &&
      (r == plan <==> forall j :: 0 <= j < |plan| - 1 ==> Answer(answers, j))
  {
    var v := FirstVeto(answers, 0, |plan|);
    if v.Some? && v.value == |plan| - 1 {
      assert Raised(plan, answers) == plan;
    }
  }

  /**
   * A move within the focused record of the focused block of the current
   * form raises no event at all.
   */
  lemma SameRecordMoveIsSilent(parent: Public.Form, block: string, rec: int)
    ensures GotoPlan(parent, parent, block, block, 0, rec, rec) == []
  {
  }

  /**
   * A listener that vetoes PostForm of the current form keeps `goto` from
   * raising anything for the form being entered.
   */
  lemma PostFormVetoStopsEntry(parent: Public.Form, current: Public.Form, preblock: string, nxtblock: string,
                               offset: int, prerec: int, nxtrec: int, answers: seq<bool>)
    requires parent != current && answers != [] && !answers[0]
    ensures Raised(GotoPlan(parent, current, preblock, nxtblock, offset, prerec, nxtrec), answers)
            == [FormEvent(Public.PostForm, current)]
  {
    var plan := GotoPlan(parent, current, preblock, nxtblock, offset, prerec, nxtrec);
    assert plan[0] == FormEvent(Public.PostForm, current);
    FirstVetoAt(plan, answers, 0);
  }

  /**
   * `goto` never raises PostBlock: leaving a block for another raises a
   * PreBlock event for the block left, then one for the block entered.
   */
  lemma LeavingBlockRaisesPreBlockTwice(parent: Public.Form, current: Public.Form?, preblock: string, nxtblock: string,
                                        offset: int, prerec: int, nxtrec: int)
    ensures var plan := GotoPlan(parent, current, preblock, nxtblock, offset, prerec, nxtrec);
      (forall e :: e in plan ==> e.kind != Public.PostBlock) &&
      (preblock != nxtblock ==>
        exists i :: 0 <= i < |plan| - 1 &&
          plan[i] == BlockEvent(Public.PreBlock, parent, preblock) &&
          plan[i + 1] == BlockEvent(Public.PreBlock, parent, nxtblock))
  {
    var plan := GotoPlan(parent, current, preblock, nxtblock, offset, prerec, nxtrec);
    var f := FormPhase(parent, current);
    if preblock != nxtblock {
      var i := |f| + 1;
      assert plan[i] == BlockEvent(Public.PreBlock, parent, preblock);
      assert plan[i + 1] == BlockEvent(Public.PreBlock, parent, nxtblock);
    }
  }

  /**
   * Every event of the plan is about this form, the form being left, or a
   * block of this form, and the form is entered before any record or block.
   */
  lemma PlanOrder(parent: Public.Form, current: Public.Form?, preblock: string, nxtblock: string,
                  offset: int, prerec: int, nxtrec: int)
    ensures var plan := GotoPlan(parent, current, preblock, nxtblock, offset, prerec, nxtrec);
      (forall i, j :: 0 <= i < j < |plan| && plan[j].FormEvent? ==> plan[i].FormEvent?) &&
      (forall e :: e in plan && e.FormEvent? ==> e.form == parent || e.form == current) &&
      (forall e :: e in plan && e.BlockEvent? ==> e.form == parent && (e.block == preblock || e.block == nxtblock))
  {
    var f := FormPhase(parent, current);
    var b := BlockPhase(parent, preblock, nxtblock, offset, prerec, nxtrec);
    var plan := f + b;
    assert forall e :: e in f ==> e.FormEvent? && (e.form == parent || e.form == current);
    BlockPhaseEvents(parent, preblock, nxtblock, offset, prerec, nxtrec);
    forall i, j | 0 <= i < j < |plan| && plan[j].FormEvent? ensures plan[i].FormEvent? {
      if j < |f| {
        assert plan[i] == f[i];
        assert f[i] in f;
      }
    }
    forall e | e in plan ensures e in f || e in b {
    }
  }

  /** The block phase raises only block events of this form, about the two blocks. */
  lemma BlockPhaseEvents(parent: Public.Form, preblock: string, nxtblock: string,
                         offset: int, prerec: int, nxtrec: int)
    ensures forall e :: e in BlockPhase(parent, preblock, nxtblock, offset, prerec, nxtrec) ==>
      e.BlockEvent? && e.form == parent && (e.block == preblock || e.block == nxtblock)
  {
  }
}
