/**
 * The value logic of the select field of
 * src/view/fields/implementations/Select.ts: its options as values with
 * selected flags, the parsing of a (multi-)value string into selected
 * options, the joined selection, the data type and multiplicity taken from
 * the tag's attributes, and the enabled/read-only flags a field state gives.
 */
module SelectField {
  import opened Wrappers
  import opened Text

  /** The data types a select field can take from its attributes. */
  datatype DataType = String | Integer | Decimal | Date | DateTime

  /** The field states `setFieldState` reacts to. */
  datatype FieldState = Open | ReadOnly | Disabled

  /** What the handler reads of a browser event. */
  datatype BrowserEvent = BrowserEvent(
    kind: string, waiting: bool, accept: bool, cancel: bool,
    bubbleMouseEvent: bool, onScrollUp: bool, onScrollDown: bool,
    onCtrlKeyDown: bool, onFuncKey: bool, navigation: bool, ignore: bool)

  /**
   * The values `setValue` looks for: the trimmed text of the value (a null
   * value prints as "null"); for a multiple select holding "," the trimmed
   * non-empty pieces, otherwise the whole text when it is not empty.
   */
  function ValueList(value: Option<string>, multiple: bool): (r: seq<string>)
    ensures forall k :: 0 <= k < |r| ==> r[k] != []
    ensures !multiple ==> |r| <= 1
  {
    var valstr := Trim(Str(value));
    if multiple && ',' in valstr then CleanPieces(Split(valstr, ','))
    else if |valstr| > 0 then [valstr]
    else []
  }

  /** The flags of options whose value is listed. */
  function Selection(optionValues: seq<string>, values: seq<string>): (r: seq<bool>)
    ensures |r| == |optionValues|
    ensures forall i :: 0 <= i < |r| ==> (r[i] <==> optionValues[i] in values)
  {
    seq(|optionValues|, i requires 0 <= i < |optionValues| => optionValues[i] in values)
  }

  /** The index of the last of the first `k` options whose value is listed; -1 when none is. */
  function LastListed(optionValues: seq<string>, values: seq<string>, k: nat): (r: int)
    requires k <= |optionValues|
    ensures -1 <= r < k
    ensures r >= 0 ==> optionValues[r] in values
    ensures forall j :: r < j < k ==> optionValues[j] !in values
  {
    if k == 0 then -1
    else if optionValues[k - 1] in values then k - 1
    else LastListed(optionValues, values, k - 1)
  }

  /**
   * The flags a select without `multiple` ends with: selecting an option
   * deselects every other one, so only the last listed option stays selected.
   */
  function SingleSelection(optionValues: seq<string>, values: seq<string>): (r: seq<bool>)
    ensures |r| == |optionValues|
    ensures forall i :: 0 <= i < |r| && r[i] ==>
              (optionValues[i] in values && forall j :: 0 <= j < |r| && j != i ==> !r[j])
    ensures forall i :: 0 <= i < |r| && r[i] ==> forall j :: i < j < |r| ==> optionValues[j] !in values
    ensures (exists i :: 0 <= i < |r| && r[i]) <==> exists i :: 0 <= i < |optionValues| && optionValues[i] in values
  {
    var last := LastListed(optionValues, values, |optionValues|);
    var r := seq(|optionValues|, i requires 0 <= i < |optionValues| => i == last);
    assert last >= 0 ==> r[last];
    r
  }

  /** `selectedIndex = 0`: only the first option selected. */
  function FirstOnly(n: nat): (r: seq<bool>)
    ensures |r| == n && forall i :: 0 <= i < n ==> (r[i] <==> i == 0)
  {
    seq(n, i => i == 0)
  }

  /**
   * The text `getSelected` accumulates over the first options: each
   * selected value is appended, after ", " unless the text so far is empty.
   */
  function Joined(optionValues: seq<string>, flags: seq<bool>): string
    requires |flags| == |optionValues|
  {
    if optionValues == [] then ""
    else
      var n := |optionValues| - 1;
      var acc := Joined(optionValues[..n], flags[..n]);
      if !flags[n] then acc
      else if |acc| > 0 then acc + ", " + optionValues[n]
      else acc + optionValues[n]
  }

  /** The values of the selected options, in option order. */
  function SelectedValues(optionValues: seq<string>, flags: seq<bool>): (r: seq<string>)
    requires |flags| == |optionValues|
    ensures |r| <= |optionValues|
  {
    if optionValues == [] then []
    else
      var n := |optionValues| - 1;
      SelectedValues(optionValues[..n], flags[..n]) + (if flags[n] then [optionValues[n]] else [])
  }

  /** The data type the type attributes give: the last of them in attribute order; string without one. */
  function TypeOf(attrs: seq<string>): DataType {
    if attrs == [] then String
    else
      var a := attrs[|attrs| - 1];
      if a == "date" then Date
      else if a == "datetime" then DateTime
      else if a == "integer" then Integer
      else if a == "decimal" then Decimal
      else TypeOf(attrs[..|attrs| - 1])
  }

  predicate IsTypeAttribute(a: string) {
    a == "date" || a == "datetime" || a == "integer" || a == "decimal"
  }

  function AttributeOf(t: DataType): string {
    match t
    case String => ""
    case Integer => "integer"
    case Decimal => "decimal"
    case Date => "date"
    case DateTime => "datetime"
  }

  class Select {
    const optionValues: seq<string>
    const selected: array<bool>
    var value: Option<string>
    var multiple: bool
    var dataType: DataType
    var state: Option<FieldState>
    var enabled: bool
    var readonly: bool

    ghost predicate Valid()
      reads this
    {
      selected.Length == |optionValues|
    }

    /** A select over the given options, none selected, with the initial field values. */
    constructor (optionValues: seq<string>)
      ensures Valid() && fresh(selected)
      ensures this.optionValues == optionValues && selected[..] == seq(|optionValues|, _ => false)
      ensures value == None && !multiple && dataType == String && state == None
      ensures enabled && !readonly
    {
      this.optionValues := optionValues;
      selected := new bool[|optionValues|](_ => false);
      value := None;
      multiple := false;
      dataType := String;
      state := None;
      enabled := true;
      readonly := false;
    }

    /**
     * `setValue` (without a data converter): stores the value, deselects
     * every option, then selects those whose value is listed (a select
     * without `multiple` keeps only the last of them); when none is,
     * selects the first option. The result tells whether one was.
     */
    method SetValue(v: Option<string>) returns (found: bool)
      requires Valid()
      modifies this`value, selected
      ensures Valid() && value == v
      ensures found <==> exists i :: 0 <= i < |optionValues| && optionValues[i] in ValueList(v, multiple)
      ensures found && multiple ==> selected[..] == Selection(optionValues, ValueList(v, multiple))
      ensures found && !multiple ==> selected[..] == SingleSelection(optionValues, ValueList(v, multiple))
      ensures !found ==> selected[..] == FirstOnly(|optionValues|)
    {
      value := v;
      var values := ParseValue(v);
      DeselectAll();
      found := SelectListed(values);
      if !found {
        assert forall j :: 0 <= j < selected.Length ==> !selected[j] by {
          forall j | 0 <= j < selected.Length ensures !selected[j] {
            if multiple {
              assert selected[..][j] == Selection(optionValues, values)[j];
            } else {
              assert selected[..][j] == SingleSelection(optionValues, values)[j];
            }
          }
        }
        SelectFirst();
      }
    }

    /** `selectedIndex = 0` over options none of which is selected: only the first one is. */
    method SelectFirst()
      requires forall j :: 0 <= j < selected.Length ==> !selected[j]
      modifies selected
      ensures selected[..] == FirstOnly(selected.Length)
    {
      if selected.Length > 0 {
        selected[0] := true;
      }
    }

    /** The first half of `setValue`: the values it looks for. */
    method ParseValue(v: Option<string>) returns (values: seq<string>)
      ensures values == ValueList(v, multiple)
    {
      var valstr := Trim(Str(v));
      values := [];
      if |valstr| > 0 {
        values := [valstr];
      }
      if multiple && ',' in valstr {
        values := SplitTrimmed(valstr, ',');
      }
    }

    /** `selectedIndex = -1`: no option selected. */
    method DeselectAll()
      modifies selected
      ensures forall j :: 0 <= j < selected.Length ==> !selected[j]
    {
      for i := 0 to selected.Length
        invariant forall j :: 0 <= j < i ==> !selected[j]
      {
        selected[i] := false;
      }
    }

    /**
     * `option.selected = true`: the option becomes selected, and in a
     * select without `multiple` every other option is deselected.
     */
    method SelectOption(i: nat)
      requires i < selected.Length
      modifies selected
      ensures multiple ==> selected[..] == old(selected[..])[i := true]
      ensures !multiple ==> forall j :: 0 <= j < selected.Length ==> (selected[j] <==> j == i)
    {
      if multiple {
        selected[i] := true;
      } else {
        forall j | 0 <= j < selected.Length {
          selected[j] := j == i;
        }
      }
    }

    /** The selecting loop of `setValue`, over options none of which is selected. */
    method SelectListed(values: seq<string>) returns (found: bool)
      requires Valid()
      requires forall j :: 0 <= j < selected.Length ==> !selected[j]
      modifies selected
      ensures found <==> exists i :: 0 <= i < |optionValues| && optionValues[i] in values
      ensures multiple ==> selected[..] == Selection(optionValues, values)
      ensures !multiple ==> selected[..] == SingleSelection(optionValues, values)
    {
      found := false;
      for i := 0 to selected.Length
        invariant found <==> exists j :: 0 <= j < i && optionValues[j] in values
        invariant multiple ==> forall j :: 0 <= j < i ==> (selected[j] <==> optionValues[j] in values)
        invariant multiple ==> forall j :: i <= j < selected.Length ==> !selected[j]
        invariant !multiple ==> forall j :: 0 <= j < selected.Length ==>
                    (selected[j] <==> j == LastListed(optionValues, values, i))
      {
        if IndexOf(values, optionValues[i]) >= 0 {
          found := true;
          SelectOption(i);
        }
      }
    }

    /**
     * `getSelected`: the selected values joined as they are accumulated;
     * `None` (null) when that text is empty.
     */
    method GetSelected() returns (r: Option<string>)
      requires Valid()
      ensures r == if Joined(optionValues, selected[..]) == "" then None else Some(Joined(optionValues, selected[..]))
    {
      var values := "";
      for i := 0 to selected.Length
        invariant values == Joined(optionValues[..i], selected[..i])
      {
        assert optionValues[..i + 1][..i] == optionValues[..i];
        assert selected[..i + 1][..i] == selected[..i];
        if selected[i] {
          if |values| > 0 {
            values := values + ", ";
          }
          values := values + optionValues[i];
        }
      }
      assert optionValues[..selected.Length] == optionValues;
      assert selected[..selected.Length] == selected[..];
      r := if |values| == 0 then None else Some(values);
    }

    /**
     * `setAttributes`: multiple and the data type start from false and
     * string, then each attribute, in order, may set them.
     */
    method SetAttributes(attrs: seq<string>)
      modifies this`multiple, this`dataType
      ensures multiple <==> "multiple" in attrs
      ensures dataType == TypeOf(attrs)
    {
      multiple := false;
      dataType := String;
      for i := 0 to |attrs|
        invariant multiple <==> "multiple" in attrs[..i]
        invariant dataType == TypeOf(attrs[..i])
      {
        assert attrs[..i + 1][..i] == attrs[..i];
        assert attrs[..i + 1] == attrs[..i] + [attrs[i]];
        var attr := attrs[i];
        if attr == "date" {
          dataType := Date;
        }
        if attr == "datetime" {
          dataType := DateTime;
        }
        if attr == "integer" {
          dataType := Integer;
        }
        if attr == "decimal" {
          dataType := Decimal;
        }
        if attr == "multiple" {
          multiple := true;
        }
      }
      assert attrs[..|attrs|] == attrs;
    }

    /**
     * `setFieldState`: stores the state and sets the element's flags from
     * it and from the field properties' `enabled` and `readonly`.
     */
    method SetFieldState(s: FieldState, propsEnabled: bool, propsReadonly: bool)
      modifies this`state, this`enabled, this`readonly
      ensures state == Some(s)
      ensures s == Disabled ==> !enabled && readonly == old(readonly)
      ensures s == ReadOnly ==> readonly && enabled == (propsEnabled || old(enabled))
      ensures s == Open ==> enabled == (propsEnabled || old(enabled)) && readonly == (old(readonly) && propsReadonly)
    {
      state := Some(s);
      match s {
        case Open =>
          if propsEnabled {
            enabled := true;
          }
          if !propsReadonly {
            readonly := false;
          }
        case ReadOnly =>
          if propsEnabled {
            enabled := true;
          }
          readonly := true;
        case Disabled =>
          enabled := false;
      }
    }

    /**
     * `handleEvent` after the event has been read: a change, accept or
     * cancel takes the selection as the value; the result tells whether
     * the event is passed on to the field's event handler.
     */
    method HandleEvent(ev: BrowserEvent) returns (forwarded: bool)
      requires Valid()
      modifies this`value
      ensures ev.waiting ==> !forwarded && value == old(value)
      ensures !ev.waiting && (ev.kind == "change" || ev.accept || ev.cancel) ==>
                value == (if Joined(optionValues, selected[..]) == "" then None else Some(Joined(optionValues, selected[..])))
      ensures !(!ev.waiting && (ev.kind == "change" || ev.accept || ev.cancel)) ==> value == old(value)
      ensures forwarded <==> !ev.waiting && (ev.navigation || (!ev.ignore && Bubbles(ev)))
    {
      var bubble := false;
      if ev.waiting {
        return false;
      }
      if ev.kind == "focus" || ev.kind == "blur" {
        bubble := true;
      }
      if ev.kind == "change" {
        bubble := true;
        value := GetSelected();
      }
      if ev.accept || ev.cancel {
        bubble := true;
        value := GetSelected();
      }
      if ev.bubbleMouseEvent || ev.onScrollUp || ev.onScrollDown || ev.onCtrlKeyDown || ev.onFuncKey {
        bubble := true;
      }
      if ev.navigation {
        bubble := true;
      } else if ev.ignore {
        return false;
      }
      forwarded := bubble;
    }
  }

  /** The events the handler passes on by their own kind or flags. */
  predicate Bubbles(ev: BrowserEvent) {
    ev.kind == "focus" || ev.kind == "blur" || ev.kind == "change" || ev.accept || ev.cancel ||
    ev.bubbleMouseEvent || ev.onScrollUp || ev.onScrollDown || ev.onCtrlKeyDown || ev.onFuncKey
  }

  /**
   * When no selected option has an empty value, `getSelected`'s text is
   * the selected values joined with ", ".
   */
  lemma {:induction false} JoinedIsJoin(optionValues: seq<string>, flags: seq<bool>)
    requires |flags| == |optionValues|
    requires forall i :: 0 <= i < |optionValues| && flags[i] ==> optionValues[i] != ""
    ensures Joined(optionValues, flags) == Join(SelectedValues(optionValues, flags), ", ")
  {
    if optionValues != [] {
      var n := |optionValues| - 1;
      JoinedIsJoin(optionValues[..n], flags[..n]);
      JoinedNonEmpty(optionValues[..n], flags[..n]);
      var sv := SelectedValues(optionValues[..n], flags[..n]);
      if flags[n] {
        assert SelectedValues(optionValues, flags) == sv + [optionValues[n]];
        if sv != [] {
          JoinSnoc(sv, optionValues[n], ", ");
        }
      } else {
        assert SelectedValues(optionValues, flags) == sv;
        assert Joined(optionValues, flags) == Joined(optionValues[..n], flags[..n]);
      }
    }
  }

  /** With non-empty selected values, the text is empty only when nothing is selected. */
  lemma {:induction false} JoinedNonEmpty(optionValues: seq<string>, flags: seq<bool>)
    requires |flags| == |optionValues|
    requires forall i :: 0 <= i < |optionValues| && flags[i] ==> optionValues[i] != ""
    ensures Joined(optionValues, flags) == "" <==> SelectedValues(optionValues, flags) == []
  {
    if optionValues != [] {
      var n := |optionValues| - 1;
      JoinedNonEmpty(optionValues[..n], flags[..n]);
    }
  }

  /**
   * An option with an empty value swallows the separator: selecting the
   * values "" and "a" gives "a", not ", a".
   */
  lemma EmptyValueSwallowsSeparator()
    ensures Joined(["", "a"], [true, true]) == "a"
  {
    assert ["", "a"][..1] == [""];
    assert [true, true][..1] == [true];
    assert Joined([""], [true]) == "";
  }

  /** After a successful `setValue`, the selected values are the listed ones, in option order. */
  lemma SelectionSelectsListed(optionValues: seq<string>, values: seq<string>)
    ensures forall v :: v in SelectedValues(optionValues, Selection(optionValues, values)) <==> v in optionValues && v in values
  {
    SelectedValuesMembers(optionValues, Selection(optionValues, values));
  }

  /** A value is among the selected values exactly when some selected option holds it. */
  lemma {:induction false} SelectedValuesMembers(optionValues: seq<string>, flags: seq<bool>)
    requires |flags| == |optionValues|
    ensures forall v :: v in SelectedValues(optionValues, flags) <==>
              exists i :: 0 <= i < |optionValues| && flags[i] && optionValues[i] == v
  {
    if optionValues != [] {
      var n := |optionValues| - 1;
      SelectedValuesMembers(optionValues[..n], flags[..n]);
      forall v | v in SelectedValues(optionValues, flags)
        ensures exists i :: 0 <= i < |optionValues| && flags[i] && optionValues[i] == v
      {
        if v !in SelectedValues(optionValues[..n], flags[..n]) {
          assert flags[n] && optionValues[n] == v;
        }
      }
    }
  }

  /** The data type is string exactly when no type attribute is present, and otherwise one that is. */
  lemma {:induction false} TypeOfAttributes(attrs: seq<string>)
    ensures TypeOf(attrs) == String <==> forall k :: 0 <= k < |attrs| ==> !IsTypeAttribute(attrs[k])
    ensures TypeOf(attrs) != String ==> AttributeOf(TypeOf(attrs)) in attrs
  {
    if attrs != [] {
      var n := |attrs| - 1;
      TypeOfAttributes(attrs[..n]);
      if !IsTypeAttribute(attrs[n]) {
        assert forall k :: 0 <= k < n ==> attrs[..n][k] == attrs[k];
      }
    }
  }

  /** No selected option: the text is empty. */
  lemma {:induction false} JoinedNone(optionValues: seq<string>, flags: seq<bool>)
    requires |flags| == |optionValues|
    requires forall i :: 0 <= i < |flags| ==> !flags[i]
    ensures Joined(optionValues, flags) == ""
  {
    if optionValues != [] {
      var n := |optionValues| - 1;
      JoinedNone(optionValues[..n], flags[..n]);
    }
  }

  /** Exactly one selected option: the text is its value. */
  lemma {:induction false} JoinedOne(optionValues: seq<string>, flags: seq<bool>, k: nat)
    requires |flags| == |optionValues| && k < |flags|
    requires forall i :: 0 <= i < |flags| ==> (flags[i] <==> i == k)
    ensures Joined(optionValues, flags) == optionValues[k]
  {
    var n := |optionValues| - 1;
    if k == n {
      JoinedNone(optionValues[..n], flags[..n]);
    } else {
      JoinedOne(optionValues[..n], flags[..n], k);
    }
  }

  /** A select without `multiple` that found a listed value shows exactly one listed value. */
  lemma SingleSelectShowsListed(optionValues: seq<string>, values: seq<string>)
    requires exists i :: 0 <= i < |optionValues| && optionValues[i] in values
    ensures Joined(optionValues, SingleSelection(optionValues, values)) in values
  {
    var flags := SingleSelection(optionValues, values);
    var k :| 0 <= k < |flags| && flags[k];
    JoinedOne(optionValues, flags, k);
  }

  /**
   * Parsing gives a single select at most one value (see
   * SingleSelectParsesOneValue), so one that found it shows exactly that
   * value, however many options carry it.
   */
  lemma SingleSelectShowsValue(optionValues: seq<string>, v: string)
    requires v in optionValues
    ensures Joined(optionValues, SingleSelection(optionValues, [v])) == v
  {
    var i :| 0 <= i < |optionValues| && optionValues[i] == v;
    assert optionValues[i] in [v];
    SingleSelectShowsListed(optionValues, [v]);
  }

  /** Two options with the same value, single select: only one is selected, so the value shows once. */
  lemma DuplicateOptionShowsOnce()
    ensures SingleSelection(["a", "a"], ["a"]) == [false, true]
    ensures Joined(["a", "a"], SingleSelection(["a", "a"], ["a"])) == "a"
  {
    var flags := SingleSelection(["a", "a"], ["a"]);
    assert flags[1] by {
      assert LastListed(["a", "a"], ["a"], 2) == 1;
    }
    JoinedOne(["a", "a"], flags, 1);
  }

  /** A single select looks for at most one value, so a list of values needs `multiple`. */
  lemma SingleSelectParsesOneValue(value: Option<string>)
    ensures ValueList(value, false) == (if Trim(Str(value)) == "" then [] else [Trim(Str(value))])
  {
  }
}
