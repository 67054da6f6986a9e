/**
 * The sub-query filter of src/model/filters/SubQuery.ts: a tuple of
 * columns matched against a table of constraint rows.
 */
module SubQueryFilter {
  import opened Wrappers
  import opened Text
  import opened Binds

  /** The constructor's argument: one comma-separated string, or an array of column names. */
  datatype ColumnSpec = CommaList(text: string) | ColumnArray(columns: seq<string>)

  /** The columns a constructor argument names: a string is split on "," and trimmed, dropping empty pieces. */
  function Columns(spec: ColumnSpec): seq<string> {
    match spec
    case CommaList(text) => CleanPieces(Split(text, ','))
    case ColumnArray(columns) => columns
  }

  /** The bind name: the columns joined with "."; undefined without columns. */
  function BindName(columns: seq<string>): (r: Option<string>)
    ensures r.None? <==> columns == []
  {
    if columns == [] then None else Some(Join(columns, "."))
  }

  /** The record's values for the lower-cased columns, in column order. */
  function ValuesOf(columns: seq<string>, record: Record): (r: seq<Option<int>>)
    ensures |r| == |columns|
    ensures forall i :: 0 <= i < |columns| ==> r[i] == ValueOf(record, Lower(columns[i]))
  {
    seq(|columns|, i requires 0 <= i < |columns| => ValueOf(record, Lower(columns[i])))
  }

  /**
   * A constraint row matches when each of its positions holds the record's
   * value for the column at that position; a position past the columns or
   * a column the record lacks is undefined and never equal.
   */
  predicate RowMatches(values: seq<Option<int>>, row: seq<int>) {
    |row| <= |values| && forall c :: 0 <= c < |row| ==> values[c] == Some(row[c])
  }

  /** The text `asSQL` gives. */
  function SQLText(columns: seq<string>, subquery: Option<string>): string {
    if subquery.None? then "1 == 2"
    else if |columns| == 1 then columns[0] + " exists in (...)"
    else "(" + Join(columns, ",") + ") exists in (...)"
  }

  /** The constructor's bind-name loop. */
  method JoinBindName(columns: seq<string>) returns (name: Option<string>)
    ensures name == BindName(columns)
  {
    if columns == [] {
      return None;
    }
    var joined := columns[0];
    for i := 1 to |columns|
      invariant joined == Join(columns[..i], ".")
    {
      assert columns[..i + 1] == columns[..i] + [columns[i]];
      JoinSnoc(columns[..i], columns[i], ".");
      joined := joined + "." + columns[i];
    }
    assert columns[..|columns|] == columns;
    name := Some(joined);
  }

  class SubQuery {
    const columns: seq<string>
    var bindval: Option<string>
    var subquery: Option<string>
    var constraint: Option<seq<seq<int>>>

    constructor (spec: ColumnSpec)
      ensures columns == Columns(spec) && bindval == BindName(columns)
      ensures subquery == None && constraint == None
    {
      var cols: seq<string>;
      match spec {
        case CommaList(text) =>
          cols := SplitTrimmed(text, ',');
        case ColumnArray(cs) =>
          cols := cs;
      }
      var name := JoinBindName(cols);
      columns := cols;
      bindval := name;
      subquery := None;
      constraint := None;
    }

    method SetSubquery(sql: Option<string>)
      modifies this`subquery
      ensures subquery == sql
    {
      subquery := sql;
    }

    /** `clear`: forgets the constraint table. */
    method Clear()
      modifies this`constraint
      ensures constraint == None
    {
      constraint := None;
    }

    function GetBindValueName(): (r: Option<string>)
      reads this
      ensures r == bindval
    {
      bindval
    }

    method SetBindValueName(name: Option<string>)
      modifies this`bindval
      ensures bindval == name
    {
      bindval := name;
    }

    method SetConstraint(table: Option<seq<seq<int>>>)
      modifies this`constraint
      ensures constraint == table
    {
      constraint := table;
    }

    /** `getBindValues`: the list it starts with, which nothing fills. */
    function GetBindValues(): (r: seq<BindValue>)
      ensures r == []
    {
      []
    }

    /**
     * `evaluate`: whether some row of the constraint table matches the
     * record's values for the columns; false without a table.
     */
    method Evaluate(record: Record) returns (matched: bool)
      ensures matched <==> (constraint.Some? &&
                exists i :: 0 <= i < |constraint.value| && RowMatches(ValuesOf(columns, record), constraint.value[i]))
    {
      if constraint.None? || |constraint.value| == 0 {
        return false;
      }
      var table := constraint.value;
      var values: seq<Option<int>> := [];
      for k := 0 to |columns|
        invariant |values| == k
        invariant forall j :: 0 <= j < k ==> values[j] == ValueOf(record, Lower(columns[j]))
      {
        values := values + [ValueOf(record, Lower(columns[k]))];
      }
      assert values == ValuesOf(columns, record);

      matched := false;
      var r := 0;
      while r < |table|
        invariant 0 <= r <= |table|
        invariant forall j :: 0 <= j < r ==> !RowMatches(values, table[j])
        invariant r > 0 ==> !matched
      {
        matched := true;
        var row := table[r];
        var c := 0;
        while c < |row|
          invariant 0 <= c <= |row|
          invariant matched
          invariant c <= |values| && forall k :: 0 <= k < c ==> values[k] == Some(row[k])
        {
          if c >= |values| || values[c] != Some(row[c]) {
            assert 0 <= c < |row| && !(c < |values| && values[c] == Some(row[c]));
            matched := false;
            break;
          }
          c := c + 1;
        }
        assert matched ==> c == |row|;
        if matched {
          assert RowMatches(values, table[r]);
          break;
        }
        r := r + 1;
      }
    }

    /** `asSQL`: the column tuple tested against the sub-query; "1 == 2" without one. */
    method AsSQL() returns (sql: string)
      ensures sql == SQLText(columns, subquery)
    {
      if subquery.None? {
        return "1 == 2";
      }
      var whcl := "";
      if |columns| == 1 {
        whcl := whcl + columns[0] + " exists in (...)";
      } else {
        whcl := whcl + "(";
        for i := 0 to |columns|
          invariant whcl == "(" + Join(columns[..i], ",")
        {
          assert columns[..i + 1] == columns[..i] + [columns[i]];
          if i > 0 {
            JoinSnoc(columns[..i], columns[i], ",");
            whcl := whcl + ",";
          }
          whcl := whcl + columns[i];
        }
        assert columns[..|columns|] == columns;
        whcl := whcl + ") exists in (...)";
      }
      sql := whcl;
    }

    /** `toString`: the same text as `asSQL`. */
    method ToString() returns (s: string)
      ensures s == SQLText(columns, subquery)
    {
      s := AsSQL();
    }
  }

  /** A column name that survives parsing: non-empty, trimmed, without ",". */
  predicate Clean(column: string) {
    column != [] && Trim(column) == column && ',' !in column
  }

  /** Every column parsed from a string is clean. */
  lemma ParsedColumnsAreClean(text: string)
    ensures forall k :: 0 <= k < |Columns(CommaList(text))| ==> Clean(Columns(CommaList(text))[k])
  {
    CleanPiecesTrimmed(Split(text, ','));
    CleanPiecesLack(Split(text, ','), ',');
  }

  /** Parsing clean columns joined with "," gives the same columns back. */
  lemma ParseJoinRoundTrip(columns: seq<string>)
    requires forall k :: 0 <= k < |columns| ==> Clean(columns[k])
    ensures Columns(CommaList(Join(columns, ","))) == columns
  {
    if columns == [] {
      assert Split([], ',') == [""];
      assert Trim("") == "";
    } else {
      SplitJoin(columns, ',');
      CleanPiecesFixpoint(columns);
    }
  }

  /** The bind name of columns without "." splits back into the columns. */
  lemma BindNameSplits(columns: seq<string>)
    requires columns != []
    requires forall k :: 0 <= k < |columns| ==> '.' !in columns[k]
    ensures Split(BindName(columns).value, '.') == columns
  {
    SplitJoin(columns, '.');
  }

  /**
   * For several clean columns, the tuple in the text of `asSQL` parses
   * back into the columns.
   */
  lemma SQLTupleRoundTrip(columns: seq<string>, subquery: string)
    requires |columns| != 1
    requires forall k :: 0 <= k < |columns| ==> Clean(columns[k])
    ensures var sql := SQLText(columns, Some(subquery));
      |sql| >= 18 && sql[0] == '(' && sql[|sql| - 17..] == ") exists in (...)" &&
      Columns(CommaList(sql[1..|sql| - 17])) == columns
  {
    var sql := SQLText(columns, Some(subquery));
    var j := Join(columns, ",");
    assert sql == "(" + j + ") exists in (...)";
    assert sql[1..|sql| - 17] == j;
    ParseJoinRoundTrip(columns);
  }

  /** A constraint row without values matches every record. */
  lemma EmptyRowMatches(values: seq<Option<int>>)
    ensures RowMatches(values, [])
  {
  }

  /** A constraint row longer than the column tuple matches no record. */
  lemma LongRowNeverMatches(values: seq<Option<int>>, row: seq<int>)
    requires |row| > |values|
    ensures !RowMatches(values, row)
  {

  }
}
