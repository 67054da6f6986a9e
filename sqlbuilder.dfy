/**
 * The statement text builder of src/database/SQLBuilder.ts. The filter
 * structure, the Equals filter and the statement object are not part of
 * this model: a filter structure is given by what `select` reads of it,
 * and `delete` takes the rendering of its key filters as parameters.
 */
module SQLBuilder {
  import opened Wrappers
  import opened Text
  import opened Binds

  /** A built statement: its text and its bind values (`None`: never set). */
  datatype Statement = Statement(stmt: string, bindvalues: Option<seq<BindValue>>)

  /** What `select` reads of a filter structure: whether it is empty, its text and its bind values. */
  datatype FilterStructure = FilterStructure(empty: bool, sql: string, binds: seq<BindValue>)

  /** An Equals filter on a primary-key column with its constraint (`None`: undefined). */
  datatype KeyFilter = KeyFilter(column: string, constraint: Option<int>)

  /** The WHERE clause of `select`: only for a present, non-empty filter. */
  function WhereClause(filter: Option<FilterStructure>): string {
    if filter.Some? && !filter.value.empty then " where " + filter.value.sql else ""
  }

  /** The ORDER BY clause of `select`: only for a given, non-empty order. */
  function OrderClause(order: Option<string>): string {
    if order.Some? && order.value != "" then " order by " + order.value else ""
  }

  /** The text of `select`. */
  function SelectText(table: string, columns: seq<string>, filter: Option<FilterStructure>, order: Option<string>): string {
    "select " + Join(columns, ",") + " from " + table + WhereClause(filter) + OrderClause(order)
  }

  /** The bind placeholders of `insert`, one per column. */
  function Placeholders(columns: seq<string>): (r: seq<string>)
    ensures |r| == |columns| && forall i :: 0 <= i < |columns| ==> r[i] == ":" + columns[i]
  {
    seq(|columns|, i requires 0 <= i < |columns| => ":" + columns[i])
  }

  /** The bind values of `insert`: each column with the record's value for it. */
  function InsertBinds(columns: seq<string>, record: Record): (r: seq<BindValue>)
    ensures |r| == |columns|
    ensures forall i :: 0 <= i < |columns| ==> r[i] == BindValue(Some(columns[i]), ValueOf(record, columns[i]))
  {
    seq(|columns|, i requires 0 <= i < |columns| => BindValue(Some(columns[i]), ValueOf(record, columns[i])))
  }

  /** The text of `insert`. */
  function InsertText(table: string, columns: seq<string>, returnclause: string): string {
    "insert into " + table + "(" + Join(columns, ",") + ") values (" + Join(Placeholders(columns), ",") + ") " + returnclause
  }

  /** The key filters of `delete`: one per primary-key column, constrained by the record's key at that position. */
  function KeyFilters(pkey: seq<string>, keys: seq<int>): (r: seq<KeyFilter>)
    ensures |r| == |pkey|
    ensures forall i :: 0 <= i < |pkey| ==>
              r[i] == KeyFilter(pkey[i], if i < |keys| then Some(keys[i]) else None)
  {
    seq(|pkey|, i requires 0 <= i < |pkey| => KeyFilter(pkey[i], if i < |keys| then Some(keys[i]) else None))
  }

  /** The text of `delete`, with the clause keyword written twice as the source writes it. */
  function DeleteText(table: string, where: string): string {
    "delete from " + table + " where " + " where " + where
  }

  /** Appends the items separated by ",", as the column loops do. */
  method AppendJoined(stmt: string, items: seq<string>) returns (r: string)
    ensures r == stmt + Join(items, ",")
  {
    r := stmt;
    for i := 0 to |items|
      invariant r == stmt + Join(items[..i], ",")
    {
      assert items[..i + 1] == items[..i] + [items[i]];
      if i > 0 {
        JoinSnoc(items[..i], items[i], ",");
        r := r + ",";
      }
      r := r + items[i];
    }
    assert items[..|items|] == items;
  }

  /** `select`: the column list, the table, then the optional WHERE and ORDER BY clauses. */
  method Select(table: string, columns: seq<string>, filter: Option<FilterStructure>, order: Option<string>)
    returns (parsed: Statement)
    ensures parsed.stmt == SelectText(table, columns, filter, order)
    ensures parsed.bindvalues == if filter.Some? then Some(filter.value.binds) else None
  {
    var stmt := AppendJoined("select ", columns);
    stmt := stmt + " from " + table;
    if filter.Some? && !filter.value.empty {
      stmt := stmt + " where " + filter.value.sql;
    }
    if order.Some? && order.value != "" {
      stmt := stmt + " order by " + order.value;
    }
    var binds := if filter.Some? then Some(filter.value.binds) else None;
    parsed := Statement(stmt, binds);
  }

  /** `fetch`: the cursor request. */
  function Fetch(cursor: string): (r: Statement)
    ensures r.bindvalues.None?
    ensures |r.stmt| == |cursor| + 15
    ensures r.stmt[..12] == "{\"cursor\": \"" && r.stmt[12..|r.stmt| - 3] == cursor && r.stmt[|r.stmt| - 3..] == "\" }"
  {
    Statement("{\"cursor\": \"" + cursor + "\" }", None)
  }

  /** `insert`: the columns, then their placeholders in the same order, with one bind value per column. */
  method Insert(table: string, columns: seq<string>, record: Record, returnclause: string) returns (parsed: Statement)
    ensures parsed.stmt == InsertText(table, columns, returnclause)
    ensures parsed.bindvalues == Some(InsertBinds(columns, record))
  {
    var stmt := AppendJoined("insert into " + table + "(", columns);
    var binds;
    stmt, binds := AppendPlaceholders(stmt + ") values (", columns, record);
    stmt := stmt + ") " + returnclause;
    parsed := Statement(stmt, Some(binds));
  }

  /** The second loop of `insert`: the placeholders joined with ",", and one bind value per column. */
  method AppendPlaceholders(start: string, columns: seq<string>, record: Record) returns (stmt: string, binds: seq<BindValue>)
    ensures stmt == start + Join(Placeholders(columns), ",")
    ensures binds == InsertBinds(columns, record)
  {
    stmt := start;
    binds := [];
    for i := 0 to |columns|
      invariant stmt == start + Join(Placeholders(columns[..i]), ",")
      invariant binds == InsertBinds(columns[..i], record)
    {
      ghost var before := Placeholders(columns[..i]);
      assert columns[..i + 1] == columns[..i] + [columns[i]];
      assert Placeholders(columns[..i + 1]) == before + [":" + columns[i]];
      if i > 0 {
        JoinSnoc(before, ":" + columns[i], ",");
        stmt := stmt + ",";
      }
      stmt := stmt + ":" + columns[i];
      binds := binds + [BindValue(Some(columns[i]), ValueOf(record, columns[i]))];
      assert binds == InsertBinds(columns[..i + 1], record);
    }
    assert columns[..|columns|] == columns;
  }

  /** `update`: not implemented in the source; it gives null. */
  function Update(table: string, columns: seq<string>, record: Record, returnclause: string): (r: Option<Statement>)
    ensures r.None?
  {
    None
  }

  /**
   * `delete`: one Equals filter per primary-key column, combined into a
   * filter structure whose text `render` and bind values `bindsOf` give.
   */
  method Delete(table: string, pkey: seq<string>, keys: seq<int>,
                render: seq<KeyFilter> -> string, bindsOf: seq<KeyFilter> -> seq<BindValue>)
    returns (parsed: Statement, filters: seq<KeyFilter>)
    ensures filters == KeyFilters(pkey, keys)
    ensures parsed.stmt == DeleteText(table, render(filters))
    ensures parsed.bindvalues == Some(bindsOf(filters))
  {
    var stmt := "delete from " + table + " where ";
    filters := [];
    for i := 0 to |pkey|
      invariant filters == KeyFilters(pkey[..i], keys)
    {
      var constraint := if i < |keys| then Some(keys[i]) else None;
      filters := filters + [KeyFilter(pkey[i], constraint)];
      assert filters == KeyFilters(pkey[..i + 1], keys);
    }
    assert pkey[..|pkey|] == pkey;
    stmt := stmt + " where " + render(filters);
    parsed := Statement(stmt, Some(bindsOf(filters)));
  }

  /** Each placeholder of `insert` names the bind value at the same position. */
  lemma InsertPlaceholdersMatchBinds(columns: seq<string>, record: Record)
    ensures |Placeholders(columns)| == |InsertBinds(columns, record)|
    ensures forall i :: 0 <= i < |columns| ==>
              Placeholders(columns)[i] == ":" + InsertBinds(columns, record)[i].name.value
  {
  }

  /** The text of `select` opens with its column list and the table. */
  lemma SelectStartsWithColumns(table: string, columns: seq<string>, filter: Option<FilterStructure>, order: Option<string>)
    ensures var head := "select " + Join(columns, ",") + " from " + table;
      |head| <= |SelectText(table, columns, filter, order)| &&
      SelectText(table, columns, filter, order)[..|head|] == head
  {
    var head := "select " + Join(columns, ",") + " from " + table;
    assert SelectText(table, columns, filter, order) == head + (WhereClause(filter) + OrderClause(order));
  }

  /**
   * Without a usable filter and order, the column list of `select`
   * splits back into the columns when none of them holds ",".
   */
  lemma SelectColumnsRoundTrip(table: string, columns: seq<string>)
    requires columns != []
    requires forall k :: 0 <= k < |columns| ==> ',' !in columns[k]
    ensures var text := SelectText(table, columns, None, None);
      text == "select " + Join(columns, ",") + " from " + table &&
      Split(text[7..|text| - 6 - |table|], ',') == columns
  {
    var text := SelectText(table, columns, None, None);
    assert text == "select " + Join(columns, ",") + " from " + table;
    assert text[7..|text| - 6 - |table|] == Join(columns, ",");
    SplitJoin(columns, ',');
  }

  /** The text of `delete` carries its clause keyword twice in a row. */
  lemma DeleteRepeatsWhere(table: string, where: string)
    ensures var text := DeleteText(table, where);
      var at := |"delete from " + table|;
      |text| >= at + 14 && text[at..at + 14] == " where  where "
  {
    var at := |"delete from " + table|;
    assert DeleteText(table, where) == ("delete from " + table) + " where  where " + where;
  }
}
