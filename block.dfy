/**
 * The view-side block of src/view/Block.ts: a map of rows keyed by row
 * number, where row -1 is the overlay (single-record detail) row, and the
 * pointer to the current list row.
 */
module ViewBlock {
  import opened Wrappers
  import Text
  import Sets

  /**
   * One record slot. Only what the block touches is kept: the row number,
   * which `finalize` rewrites in place, and the string value of each of the
   * row's fields, keyed by field name.
   */
  class Row {
    var rownum: int
    var values: map<string, string>

    constructor (rownum: int, values: map<string, string>)
      ensures this.rownum == rownum && this.values == values
    {
      this.rownum := rownum;
      this.values := values;
    }

    /** Puts `value` into this row's field called `field`, if the row has one. */
    method Distribute(field: string, value: string)
      modifies this`values
      ensures values == if field in old(values) then old(values)[field := value] else old(values)
    {
      if field in values {
        values := values[field := value];
      }
    }
  }

  /** The overlay row's values after the fields of `src` have been copied into it. */
  function Mirror(overlay: map<string, string>, src: map<string, string>): (r: map<string, string>)
    ensures r.Keys == overlay.Keys
    ensures forall f :: f in overlay && f in src ==> r[f] == src[f]
    ensures forall f :: f in overlay && f !in src ==> r[f] == overlay[f]
  {
    map f | f in overlay :: if f in src then src[f] else overlay[f]
  }

  /** The copying loop of `setCurrentRow`: every field of `src` is distributed into `current`. */
  method MirrorRow(current: Row, src: Row)
    requires current != src
    modifies current`values
    ensures current.values == Mirror(old(current.values), src.values)
  {
    var fields := src.values.Keys;
    var done: set<string> := {};
    ghost var start := current.values;
    while fields != {}
      invariant fields + done == src.values.Keys && fields !! done
      invariant current.values == Mirror(start, map f | f in done :: src.values[f])
      decreases fields
    {
      ghost var some := Sets.Pick(fields);
      var f :| f in fields;
      current.Distribute(f, src.values[f]);
      fields := fields - {f};
      done := done + {f};
    }
    assert (map f | f in done :: src.values[f]) == src.values;
  }

  /** The non-negative (list) row numbers among `keys`. */
  function ListRows(keys: set<int>): set<int> {
    set k | k in keys && 0 <= k
  }

  /** How many list row numbers of `keys` are smaller than `k`. */
  function Rank(keys: set<int>, k: int): nat {
    |set j | j in keys && 0 <= j < k|
  }

  /**
   * The number `finalize` gives the row that had number `k`: a lone row
   * becomes 0, an overlay (negative) row keeps its number, and the list rows
   * are numbered by their rank.
   */
  function NewNumber(keys: set<int>, k: int): int {
    if |keys| == 1 then 0 else if k < 0 then k else Rank(keys, k)
  }

  /** Ranks grow strictly with the row number. */
  lemma RankMonotone(keys: set<int>, a: int, b: int)
    requires a in keys && 0 <= a < b
    ensures Rank(keys, a) < Rank(keys, b)
  {
    Sets.ProperSubsetCard((set j | j in keys && 0 <= j < a), (set j | j in keys && 0 <= j < b), a);
  }

  /** A list row's rank is below the number of list rows. */
  lemma RankBound(keys: set<int>, k: int)
    requires k in keys && 0 <= k
    ensures Rank(keys, k) < |ListRows(keys)|
  {
    Sets.ProperSubsetCard((set j | j in keys && 0 <= j < k), ListRows(keys), k);
  }

  /** An injective image of a finite set has as many elements as the set. */
  lemma {:induction false} RankImageCard(keys: set<int>, s: set<int>)
    requires s <= ListRows(keys)
    ensures |set k | k in s :: Rank(keys, k)| == |s|
  {
    if s != {} {
      var x := Sets.Pick(s);
      var s' := s - {x};
      RankImageCard(keys, s');
      var img := set k | k in s :: Rank(keys, k);
      var img' := set k | k in s' :: Rank(keys, k);
      assert img == img' + {Rank(keys, x)};
      if Rank(keys, x) in img' {
        var y :| y in s' && Rank(keys, y) == Rank(keys, x);
        if y < x { RankMonotone(keys, y, x); } else { RankMonotone(keys, x, y); }
      }
    }
  }

  /** The row numbers 0..n-1. */
  function Range(n: nat): (r: set<int>)
    ensures forall i :: i in r <==> 0 <= i < n
    ensures |r| == n
  {
    if n == 0 then {} else Range(n - 1) + {n - 1}
  }

  /**
   * What `finalize` promises of the numbering when there are several rows:
   * the list rows get exactly the numbers 0..k-1, in the order of their old
   * numbers, and overlay rows keep their numbers; no two rows share a number.
   */
  lemma FinalizeNumbering(keys: set<int>)
    requires |keys| > 1
    ensures forall k :: k in keys && k < 0 ==> NewNumber(keys, k) == k
    ensures (set k | k in keys && 0 <= k :: NewNumber(keys, k)) == Range(|ListRows(keys)|)
    ensures forall a, b :: a in keys && b in keys && 0 <= a < b ==>
              0 <= NewNumber(keys, a) < NewNumber(keys, b)
    ensures forall a, b :: a in keys && b in keys && a != b ==>
              NewNumber(keys, a) != NewNumber(keys, b)
  {
    NumberingImage(keys);
    forall a, b | a in keys && b in keys && 0 <= a < b
      ensures 0 <= NewNumber(keys, a) < NewNumber(keys, b)
    {
      RankMonotone(keys, a, b);
    }
    forall a, b | a in keys && b in keys && a != b
      ensures NewNumber(keys, a) != NewNumber(keys, b)
    {
      if a < b { NewNumberInjective(keys, a, b); } else { NewNumberInjective(keys, b, a); }
    }
  }

  /** With several rows, the list rows' new numbers are exactly 0..k-1. */
  lemma NumberingImage(keys: set<int>)
    requires |keys| > 1
    ensures (set k | k in keys && 0 <= k :: NewNumber(keys, k)) == Range(|ListRows(keys)|)
  {
    var img := set k | k in keys && 0 <= k :: NewNumber(keys, k);
    var rng := Range(|ListRows(keys)|);
    assert img == set k | k in ListRows(keys) :: Rank(keys, k);
    RankImageCard(keys, ListRows(keys));
    forall k | k in keys && 0 <= k ensures NewNumber(keys, k) in rng {
      RankBound(keys, k);
    }
    Sets.SubsetSameCardEqual(img, rng);
  }

  /** Two rows never get the same new number. */
  lemma NewNumberInjective(keys: set<int>, a: int, b: int)
    requires a in keys && b in keys && a < b
    ensures NewNumber(keys, a) != NewNumber(keys, b)
  {
    if |keys| == 1 {
      assert a in keys - {b};
      Sets.ProperSubsetCard(keys - {b}, keys, b);
      assert false;
    }
    if 0 <= a {
      RankMonotone(keys, a, b);
    }
  }

  /** A finite non-empty set of row numbers has a smallest one. */
  lemma {:induction false} HasMinimum(s: set<int>)
    requires s != {}
    ensures exists m :: m in s && forall y :: y in s ==> m <= y
  {
    var x := Sets.Pick(s);
    if s == {x} {
      assert forall y :: y in s ==> x <= y;
    } else {
      HasMinimum(s - {x});
      var m :| m in s - {x} && forall y :: y in s - {x} ==> m <= y;
      var least := if x < m then x else m;
      forall y | y in s ensures least <= y {
        if y != x { assert y in s - {x}; }
      }
      assert least in s;
    }
  }

  /** The non-negative row numbers in a sequence of them. */
  function ListRowsOf(ks: seq<int>): set<int> {
    set k | k in ks && 0 <= k
  }

  predicate StrictlyAscending(ks: seq<int>) {
    forall a, b :: 0 <= a < b < |ks| ==> ks[a] < ks[b]
  }

  /** The row numbers of `s` in ascending order (the sort in `finalize`). */
  method SortedNumbers(s: set<int>) returns (ks: seq<int>)
    ensures StrictlyAscending(ks)
    ensures forall k :: k in ks <==> k in s
    ensures |ks| == |s|
  {
    ks := [];
    var rest := s;
    while rest != {}
      invariant StrictlyAscending(ks)
      invariant forall k :: k in s <==> k in ks || k in rest
      invariant forall a, y :: 0 <= a < |ks| && y in rest ==> ks[a] < y
      invariant forall k :: k in ks ==> k !in rest
      invariant |ks| + |rest| == |s|
      decreases |rest|
    {
      HasMinimum(rest);
      var m :| m in rest && forall y :: y in rest ==> m <= y;
      ks := ks + [m];
      rest := rest - {m};
    }
  }

  class Block {
    /** The current row; 0 before any move. */
    var curr: int
    const name: string
    var rows: map<int, Row>

    /** Every row is stored under its own number (so no row is stored twice). */
    ghost predicate Valid()
      reads this, rows.Values
    {
      forall k :: k in rows ==> rows[k].rownum == k
    }

    /** `new Block(form, name)`: the name is lower-cased, a missing one is "". */
    constructor (name: Option<string>)
      ensures Valid()
      ensures curr == 0 && rows == map[]
      ensures this.name == Text.Lower(name.GetOr(""))
    {
      curr := 0;
      this.name := Text.Lower(name.GetOr(""));
      rows := map[];
    }

    /** `getRow`: the row stored under `rownum`, if any. */
    function GetRow(rownum: int): (r: Option<Row>)
      requires Valid()
      reads this, rows.Values
      ensures r.Some? <==> rownum in rows
      ensures r.Some? ==> r.value.rownum == rownum && r.value in rows.Values
    {
      if rownum in rows then Some(rows[rownum]) else None
    }

    /** `addRow`: stores the row under its number, replacing any row already there. */
    method AddRow(row: Row)
      requires Valid()
      modifies this`rows
      ensures Valid()
      ensures rows == old(rows)[row.rownum := row]
      ensures GetRow(row.rownum) == Some(row)
    {
      rows := rows[row.rownum := row];
    }

    /**
     * `setCurrentRow`. Moving to -1 or to the current row does nothing.
     * Otherwise the pointer moves, and when there is an overlay row the new
     * current row's field values are copied into it. `thrown` is set when the
     * new current row does not exist while an overlay does: the source then
     * dereferences an undefined row (after having moved the pointer).
     */
    method SetCurrentRow(row: int) returns (thrown: bool)
      requires Valid()
      modifies this`curr, rows.Values`values
      ensures Valid() && rows == old(rows)
      ensures curr == if row == -1 || row == old(curr) then old(curr) else row
      ensures thrown <==> row != -1 && row != old(curr) && -1 in rows && row !in rows
      ensures !thrown && row != -1 && row != old(curr) && -1 in rows ==>
                rows[-1].values == Mirror(old(rows[-1].values), rows[row].values)
      ensures forall k :: k in rows && (k != -1 || thrown || row == -1 || row == old(curr)) ==>
                rows[k].values == old(rows[k].values)
    {
      thrown := false;
      if row == -1 || row == curr {
        return;
      }
      curr := row;
      if -1 in rows {
        var current := rows[-1];
        if curr !in rows {
          thrown := true;
          return;
        }
        var src := rows[curr];
        assert src != current;
        MirrorRow(current, src);
      }
    }

    /** Where `distribute` sends an edit made in a field of row `fieldRow`. */
    function Destination(fieldRow: int): (d: Option<int>)
      reads this
      ensures d.Some? ==> d.value in rows
      ensures fieldRow >= 0 ==> (d.Some? <==> -1 in rows) && (d.Some? ==> d.value == -1)
      ensures fieldRow < 0 ==> (d.Some? <==> curr in rows) && (d.Some? ==> d.value == curr)
    {
      if fieldRow >= 0 then (if -1 in rows then Some(-1) else None)
      else if curr in rows then Some(curr) else None
    }

    /**
     * `distribute`: an edit in a list row goes to the overlay row, an edit in
     * the overlay row goes to the current row; no other row changes.
     */
    method Distribute(field: string, fieldRow: int, value: string)
      requires Valid()
      modifies rows.Values`values
      ensures Valid() && rows == old(rows)
      ensures forall k :: k in rows && Some(k) != Destination(fieldRow) ==>
                rows[k].values == old(rows[k].values)
      ensures Destination(fieldRow).Some? ==>
                var t := rows[Destination(fieldRow).value];
                t.values == if field in old(t.values) then old(t.values)[field := value] else old(t.values)
    {
      var d := if fieldRow >= 0 then -1 else curr;
      if d in rows {
        rows[d].Distribute(field, value);
      }
    }

    /**
     * `finalize`: sorts the rows by number, renumbers them (see NewNumber)
     * and stores each again under its new number. The same row objects stay
     * in the block and nothing else about them changes.
     */
    method Finalize()
      requires Valid()
      modifies this`rows, rows.Values`rownum
      ensures Valid()
      ensures |rows| == old(|rows|)
      ensures forall k :: k in old(rows) ==>
                old(rows)[k].rownum == NewNumber(old(rows).Keys, k) &&
                NewNumber(old(rows).Keys, k) in rows && rows[NewNumber(old(rows).Keys, k)] == old(rows)[k]
    {
      ghost var keys := rows.Keys;
      var ks := SortedNumbers(rows.Keys);
      forall j | 0 <= j < |ks| ensures ks[j] in rows {
        assert ks[j] in ks;
      }
      var list: seq<Row> := [];
      var i := 0;
      while i < |ks|
        invariant 0 <= i <= |ks| && |list| == i
        invariant forall j :: 0 <= j < i ==> list[j] == rows[ks[j]]
      {
        list := list + [rows[ks[i]]];
        i := i + 1;
      }
      assert forall a, b :: 0 <= a < b < |list| ==> list[a] != list[b] by {
        forall a, b | 0 <= a < b < |list| ensures list[a] != list[b] {
          assert list[a].rownum == ks[a] < ks[b] == list[b].rownum;
        }
      }
      Renumber(list, ks, keys);
      var renumbered := Rekey(list, ks, keys);
      rows := renumbered;
      forall k | k in old(rows)
        ensures old(rows)[k].rownum == NewNumber(keys, k) && rows[NewNumber(keys, k)] == old(rows)[k]
      {
        var j :| 0 <= j < |ks| && ks[j] == k;
      }
    }
  }

  /** Rows listed in ascending order of their (distinct) numbers `ks`. */
  ghost predicate SortedRows(list: seq<Row>, ks: seq<int>, keys: set<int>) {
    && |list| == |ks| == |keys|
    && StrictlyAscending(ks)
    && (forall k :: k in ks <==> k in keys)
    && (forall a, b :: 0 <= a < b < |list| ==> list[a] != list[b])
  }

  /**
   * The loop of `finalize` that walks the sorted rows with counter `n`: a
   * lone row gets number 0, and when there are several, each list row gets
   * the next value of `n` and overlay rows are skipped.
   */
  method Renumber(list: seq<Row>, ks: seq<int>, ghost keys: set<int>)
    requires SortedRows(list, ks, keys)
    requires forall j :: 0 <= j < |list| ==> list[j].rownum == ks[j]
    modifies list`rownum
    ensures forall j :: 0 <= j < |list| ==> list[j].rownum == NewNumber(keys, ks[j])
  {
    if |list| == 1 {
      list[0].rownum := 0;
    }
    if |list| > 1 {
      var n := 0;
      var i := 0;
      while i < |list|
        invariant 0 <= i <= |list|
        invariant n == |ListRowsOf(ks[..i])|
        invariant forall j :: 0 <= j < i ==> list[j].rownum == NewNumber(keys, ks[j])
        invariant forall j :: i <= j < |list| ==> list[j].rownum == ks[j]
      {
        RankPrefix(ks, keys, i);
        ListRowsStep(ks, i);
        if list[i].rownum < 0 {
          i := i + 1;
          continue;
        }
        list[i].rownum := n;
        n := n + 1;
        i := i + 1;
      }
    }
  }

  /** In ascending order, the list rows before position `i` are those numbered below `ks[i]`. */
  lemma RankPrefix(ks: seq<int>, keys: set<int>, i: nat)
    requires StrictlyAscending(ks) && (forall k :: k in ks <==> k in keys) && i < |ks|
    ensures Rank(keys, ks[i]) == |ListRowsOf(ks[..i])|
  {
    var below := set j | j in keys && 0 <= j < ks[i];
    forall j ensures j in below <==> j in ListRowsOf(ks[..i]) {
      if j in below {
        assert j in ks;
        var m :| 0 <= m < |ks| && ks[m] == j;
        assert m < i;
        assert ks[..i][m] == j;
      }
      if j in ListRowsOf(ks[..i]) {
        var m :| 0 <= m < i && ks[..i][m] == j;
        assert ks[m] in ks;
      }
    }
    Sets.Extensional(below, ListRowsOf(ks[..i]));
  }

  /** One more position adds its row number when that is a list row. */
  lemma ListRowsStep(ks: seq<int>, i: nat)
    requires StrictlyAscending(ks) && i < |ks|
    ensures |ListRowsOf(ks[..i + 1])| == |ListRowsOf(ks[..i])| + (if ks[i] >= 0 then 1 else 0)
  {
    var before := ListRowsOf(ks[..i]);
    var after := ListRowsOf(ks[..i + 1]);
    var added: set<int> := if ks[i] >= 0 then {ks[i]} else {};
    assert ks[..i + 1] == ks[..i] + [ks[i]];
    forall j ensures j in after <==> j in before + added {
      if j in before {
        var m :| 0 <= m < i && ks[..i][m] == j;
        assert ks[..i + 1][m] == j;
      }
    }
    Sets.Extensional(after, before + added);
    if ks[i] >= 0 {
      assert forall m :: 0 <= m < i ==> ks[..i][m] < ks[i];
      assert ks[i] !in ks[..i];
    }
  }

  /** The second half of `finalize`: the rows stored again under their new numbers. */
  method Rekey(list: seq<Row>, ks: seq<int>, ghost keys: set<int>) returns (rows: map<int, Row>)
    requires SortedRows(list, ks, keys)
    requires forall j :: 0 <= j < |list| ==> list[j].rownum == NewNumber(keys, ks[j])
    ensures forall k :: k in rows ==> rows[k].rownum == k
    ensures forall j :: 0 <= j < |list| ==> list[j].rownum in rows && rows[list[j].rownum] == list[j]
    ensures |rows| == |list|
  {
    rows := map[];
    var i := 0;
    while i < |list|
      invariant 0 <= i <= |list| && |rows| == i
      invariant forall k :: k in rows ==> rows[k].rownum == k
      invariant forall j :: 0 <= j < i ==> list[j].rownum in rows && rows[list[j].rownum] == list[j]
      invariant forall k :: k in rows ==> exists j :: 0 <= j < i && list[j].rownum == k
    {
      assert list[i].rownum !in rows by {
        if list[i].rownum in rows {
          var j :| 0 <= j < i && list[j].rownum == list[i].rownum;
          assert ks[j] in ks && ks[i] in ks;
          NewNumberInjective(keys, ks[j], ks[i]);
          assert false;
        }
      }
      rows := rows[list[i].rownum := list[i]];
      i := i + 1;
    }
  }
}
