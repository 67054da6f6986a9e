/**
 * The less-than filter of src/model/filters/LT.ts: a column, whether the
 * bound is inclusive, the bind name and the constraint.
 */
module LTFilter {
  import opened Wrappers
  import opened Text
  import opened Binds

  /**
   * The text `asSQL` gives for a filter state, taking a null bind name as
   * the column, as `asSQL` does before it builds the text.
   */
  function SQLText(column: Option<string>, incl: bool, bindval: Option<string>, constraint: Option<int>): (r: string)
    ensures r == "1 == 2" <==> constraint.None?
    ensures constraint.Some? ==> ':' in r
  {
    if constraint.None? then "1 == 2"
    else
      var name := if bindval.None? then column else bindval;
      var op := if incl then "<=" else "<";
      var r := Str(column) + " " + op + " :" + Str(name);
      assert r[|Str(column)| + 1 + |op| + 1] == ':';
      assert ':' !in "1 == 2";
      r
  }

  class LT {
    const column: Option<string>
    const incl: bool
    var bindval: Option<string>
    var constraint: Option<int>

    /** A missing `incl` argument is false; the bind name starts as the column name. */
    constructor (column: Option<string>, incl: bool)
      ensures this.column == column && this.incl == incl
      ensures bindval == column && constraint == None
    {
      this.column := column;
      this.incl := incl;
      bindval := column;
      constraint := None;
    }

    /** `clear`: forgets the constraint. */
    method Clear()
      modifies this`constraint
      ensures constraint == None
    {
      constraint := None;
    }

    function GetBindValueName(): (r: Option<string>)
      reads this
      ensures r == bindval
    {
      bindval
    }

    method SetBindValueName(name: Option<string>)
      modifies this`bindval
      ensures bindval == name
    {
      bindval := name;
    }

    method SetConstraint(value: Option<int>)
      modifies this`constraint
      ensures constraint == value
    {
      constraint := value;
    }

    /** `getBindValues`: the one bind value, named by the bind name and holding the constraint. */
    function GetBindValues(): (r: seq<BindValue>)
      reads this
      ensures |r| == 1 && r[0].name == bindval && r[0].value == constraint
    {
      [BindValue(bindval, constraint)]
    }

    /**
     * `evaluate`: whether the record's value of the (lower-cased) column is
     * below the constraint, or at most the constraint when inclusive. A
     * missing column, constraint or record value never matches.
     */
    function Evaluate(record: Record): (r: bool)
      reads this
      ensures r ==> column.Some? && constraint.Some? && Lower(column.value) in record
      ensures column.Some? && constraint.Some? && Lower(column.value) in record ==>
                (r <==> (if incl then record[Lower(column.value)] <= constraint.value
                         else record[Lower(column.value)] < constraint.value))
    {
      if column.None? then false
      else if constraint.None? then false
      else
        match ValueOf(record, Lower(column.value))
        case None => false
        case Some(v) => if incl then v <= constraint.value else v < constraint.value
    }

    /**
     * `asSQL`: "1 == 2" without a constraint; otherwise the comparison of
     * the column with the bind placeholder, after a null bind name has been
     * reset to the column name. The placeholder names the bind value that
     * `getBindValues` then gives.
     */
    method AsSQL() returns (sql: string)
      modifies this`bindval
      ensures sql == SQLText(column, incl, old(bindval), constraint)
      ensures bindval == if constraint.Some? && old(bindval).None? then column else old(bindval)
      ensures constraint.Some? ==>
                sql == Str(column) + " " + (if incl then "<=" else "<") + " :" + Str(GetBindValues()[0].name)
    {
      if constraint.None? {
        return "1 == 2";
      }
      if bindval.None? {
        bindval := column;
      }
      var op := if incl then "<=" else "<";
      sql := Str(column) + " " + op + " :" + Str(bindval);
    }
  }

  /** A cleared filter matches no record, and its text matches no row. */
  lemma ClearedFilterIsFalse(f: LT, record: Record)
    requires f.constraint == None
    ensures !f.Evaluate(record)
    ensures SQLText(f.column, f.incl, f.bindval, f.constraint) == "1 == 2"
  {
  }

  /** A filter that matches some record has a real comparison as its text. */
  lemma MatchingFilterHasComparison(f: LT, record: Record)
    requires f.Evaluate(record)
    ensures SQLText(f.column, f.incl, f.bindval, f.constraint) != "1 == 2"
  {
  }

  /** A null bind name gives the same text as a bind name equal to the column. */
  lemma NullBindNameIsColumn(column: Option<string>, incl: bool, constraint: Option<int>)
    ensures SQLText(column, incl, None, constraint) == SQLText(column, incl, column, constraint)
  {
  }
}
