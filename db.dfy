/**
 * The data-access layer of the todo service over an SQLite store with
 * three tables: todos, tags and the association table todos_tags.
 *
 * The tables are sequences of rows in storage order (see module Tables).
 * The SQL clock is an abstract counter that only moves forward. A reading of
 * it is rendered as the decimal seconds strftime('%s', 'now') produces.
 */
module Db {
  import opened Wrappers
  import opened Models
  import opened Tables

  datatype TableName = Todos | Tags | TodosTags

  const AllTables: set<TableName> := {Todos, Tags, TodosTags}

  /** The order in which schema creation issues its CREATE TABLE IF NOT EXISTS statements. */
  const SchemaOrder: seq<TableName> := [Todos, Tags, TodosTags]

  /** ErrNoRows is the driver's "no row matched"; SchemaError is a failed CREATE TABLE. */
  datatype DbError = ErrNoRows | SchemaError(table: TableName)

  datatype TodoCols = TodoCols(title: string, description: string, createdAt: nat,
                               updatedAt: nat, status: ToDoStatus)
  datatype TagCols = TagCols(name: string, createdAt: nat)
  datatype LinkCols = LinkCols(todoId: int, tagId: int)

  // ---------------------------------------------------------------- schema

  /**
   * The tables present after the statements of `order` are issued in turn
   * on a store holding `present`, where the statements for `failing` fail;
   * the first failure ends the sequence and is the error returned.
   */
  function CreateTables(order: seq<TableName>, present: set<TableName>, failing: set<TableName>)
    : (outcome: (set<TableName>, Option<DbError>))
    ensures outcome.1.None? <==> forall j :: 0 <= j < |order| ==> order[j] !in failing
    ensures outcome.1.Some? ==> outcome.1.value.SchemaError? && outcome.1.value.table in failing
  {
    if order == [] then (present, None)
    else if order[0] in failing then (present, Some(SchemaError(order[0])))
    else CreateTables(order[1..], present + {order[0]}, failing)
  }

  /**
   * Schema creation stops at the first failing statement: the tables before
   * it are created, it reports the error, and no later table is tried.
   */
  lemma {:induction false} CreateTablesStopsAtFirstFailure(order: seq<TableName>, present: set<TableName>,
                                                           failing: set<TableName>, k: nat)
    requires k <= |order|
    requires forall j :: 0 <= j < k ==> order[j] !in failing
    requires k == |order| || order[k] in failing
    ensures CreateTables(order, present, failing) ==
            (present + (set t | t in order[..k]),
             if k < |order| then Some(SchemaError(order[k])) else None)
  {
    if k > 0 {
      CreateTablesStopsAtFirstFailure(order[1..], present + {order[0]}, failing, k - 1);
      var rest := order[1..][..k - 1];
      assert order[..k] == [order[0]] + rest;
      assert (set t | t in order[..k]) == {order[0]} + (set t | t in rest);
      assert k < |order| ==> order[1..][k - 1] == order[k];
      assert order[0] !in failing;
      assert CreateTables(order, present, failing) == CreateTables(order[1..], present + {order[0]}, failing);
      assert (present + {order[0]}) + (set t | t in rest) == present + (set t | t in order[..k]);
    } else {
      assert order[..k] == [];
      assert (set t | t in order[..k]) == {};
      assert present + {} == present;
    }
  }

  /** Schema creation only ever adds tables named in its statement order. */
  lemma {:induction false} CreateTablesOnlyAdds(order: seq<TableName>, present: set<TableName>,
                                                failing: set<TableName>)
    ensures present <= CreateTables(order, present, failing).0
    ensures forall t | t in CreateTables(order, present, failing).0 :: t in present || t in order
  {
    if order != [] && order[0] !in failing {
      CreateTablesOnlyAdds(order[1..], present + {order[0]}, failing);
    }
  }

  /**
   * Idempotence: on a store that already holds every table, schema creation
   * changes nothing, whichever statements fail.
   */
  lemma SchemaIdempotent(present: set<TableName>, failing: set<TableName>)
    requires AllTables <= present
    ensures CreateTables(SchemaOrder, present, failing).0 == present
  {
    CreateTablesOnlyAdds(SchemaOrder, present, failing);
  }

  // ---------------------------------------------------------------- rows as records

  /** The decimal digits of a natural number, without leading zeros. */
  function Decimal(n: nat): (text: string)
    ensures text != [] && AllDigits(text)
    ensures text[0] == '0' <==> n == 0
    ensures |text| > 1 ==> text[0] != '0'
  {
    var digit := [(48 + n % 10) as char];
    if n < 10 then digit else Decimal(n / 10) + digit
  }

  /** A clock reading as strftime('%s') renders it: its decimal seconds. */
  function Timestamp(t: nat): (text: string)
    ensures text != [] && AllDigits(text)
  {
    Decimal(t)
  }

  // ---------------------------------------------------------------- NUMERIC affinity of tags.name

  /**
   * The tags.name column is declared STRING, which SQLite gives NUMERIC
   * affinity: a text that is a well-formed integer literal within 64 bits
   * is stored as an INTEGER, and the read-back renders that integer.
   */
  const MinInt64: int := -0x8000_0000_0000_0000
  const MaxInt64: int := 0x7fff_ffff_ffff_ffff

  predicate AllDigits(d: string) {
    forall i :: 0 <= i < |d| ==> '0' <= d[i] <= '9'
  }

  /** An optional sign followed by one or more decimal digits. */
  predicate IsIntegerLiteral(s: string) {
    var digits := if |s| > 0 && (s[0] == '+' || s[0] == '-') then s[1..] else s;
    digits != [] && AllDigits(digits)
  }

  /** The value of a string of decimal digits. */
  function DigitsValue(d: string): nat
    requires AllDigits(d)
  {
    if d == [] then 0
    else 10 * DigitsValue(d[..|d| - 1]) + (d[|d| - 1] as int - 48)
  }

  /** The value of an integer literal. */
  function LiteralValue(s: string): int
    requires IsIntegerLiteral(s)
  {
    if s[0] == '-' then -(DigitsValue(s[1..]) as int)
    else if s[0] == '+' then DigitsValue(s[1..])
    else DigitsValue(s)
  }

  /**
   * The canonical text of an integer: "0", or an optional minus sign
   * followed by digits that do not start with a zero.
   */
  predicate IsCanonicalLiteral(s: string): (canonical: bool)
    ensures canonical ==> IsIntegerLiteral(s)
  {
    var digits := if |s| > 0 && s[0] == '-' then s[1..] else s;
    s == "0" || (digits != [] && AllDigits(digits) && digits[0] != '0')
  }

  /** An integer as its text: a minus sign for negatives, then its digits. */
  function IntegerText(v: int): (text: string)
    ensures IsIntegerLiteral(text) && IsCanonicalLiteral(text)
  {
    if v < 0 then "-" + Decimal(-v) else Decimal(v)
  }

  /** The name a tags row holds, and reads back, for the name inserted. */
  function StoredName(name: string): (stored: string)
    ensures !IsIntegerLiteral(name) ==> stored == name
    ensures IsIntegerLiteral(name) && !(MinInt64 <= LiteralValue(name) <= MaxInt64) ==> stored == name
    ensures IsIntegerLiteral(name) && MinInt64 <= LiteralValue(name) <= MaxInt64 ==>
              IsCanonicalLiteral(stored) && LiteralValue(stored) == LiteralValue(name)
  {
    if IsIntegerLiteral(name) && MinInt64 <= LiteralValue(name) <= MaxInt64 then
      IntegerTextRoundTrip(LiteralValue(name));
      IntegerText(LiteralValue(name))
    else name
  }

  /** Reading the digits back gives the number. */
  lemma {:induction false} DecimalRoundTrip(n: nat)
    ensures DigitsValue(Decimal(n)) == n
  {
    if n >= 10 {
      DecimalRoundTrip(n / 10);
      var text := Decimal(n);
      assert text[..|text| - 1] == Decimal(n / 10);
    }
  }

  /** Parsing the text of an integer gives the integer back. */
  lemma IntegerTextRoundTrip(v: int)
    ensures LiteralValue(IntegerText(v)) == v
  {
    if v < 0 {
      DecimalRoundTrip(-v);
      assert IntegerText(v)[1..] == Decimal(-v);
    } else {
      DecimalRoundTrip(v);
    }
  }

  /** Digits without a leading zero are the decimal text of their value. */
  lemma {:induction false} DigitsRoundTrip(d: string)
    requires d != [] && AllDigits(d) && (|d| == 1 || d[0] != '0')
    ensures Decimal(DigitsValue(d)) == d
  {
    if |d| > 1 {
      var prefix := d[..|d| - 1];
      DigitsRoundTrip(prefix);
      assert prefix[0] == d[0];
      assert DigitsValue(prefix) != 0;
      assert d == prefix + [d[|d| - 1]];
    }
  }

  /**
   * The canonical text of an integer is the only one: rendering the value
   * of a canonical literal gives the literal back.
   */
  lemma CanonicalRoundTrip(s: string)
    requires IsCanonicalLiteral(s)
    ensures IntegerText(LiteralValue(s)) == s
  {
    if s != "0" {
      if s[0] == '-' {
        var digits := s[1..];
        DigitsRoundTrip(digits);
        assert DigitsValue(digits) != 0;
        assert s == "-" + digits;
      } else {
        DigitsRoundTrip(s);
      }
    }
  }

  /**
   * A name read back from the tags table is stored unchanged when inserted
   * again: the canonical text of an integer is its own canonical text.
   */
  lemma StoredNameIdempotent(name: string)
    ensures StoredName(StoredName(name)) == StoredName(name)
  {
  }

  /** Leading zeros and a plus sign are lost; names that are not integer literals are kept. */
  lemma StoredNameExamples()
    ensures StoredName("007") == "7"
    ensures StoredName("+12") == "12"
    ensures StoredName("-0") == "0"
    ensures StoredName("tag") == "tag"
    ensures StoredName("0x1A") == "0x1A"
    ensures StoredName("") == ""
  {
    assert IsIntegerLiteral("007") && "007"[..2] == "00" && "00"[..1] == "0" && "0"[..0] == [];
    assert LiteralValue("007") == 7;
    assert IsIntegerLiteral("+12") && "+12"[1..] == "12" && "12"[..1] == "1" && "1"[..0] == [];
    assert LiteralValue("+12") == 12;
    assert IsIntegerLiteral("-0") && "-0"[1..] == "0";
    assert LiteralValue("-0") == 0;
    assert !IsIntegerLiteral("tag") by { assert "tag"[0] == 't'; }
    assert !IsIntegerLiteral("0x1A") by { assert "0x1A"[1] == 'x'; }
  }

  /** A todos row scanned into a ToDo; the scan never sets Tags. */
  function TodoRecord(row: Row<TodoCols>): (r: ToDo)
    ensures r.id == row.id && r.tags == None && !r.IsEmpty()
  {
    ToDo(row.id, row.cols.title, row.cols.description, Timestamp(row.cols.createdAt),
         Timestamp(row.cols.updatedAt), row.cols.status, None)
  }

  /** A tags row scanned into a Tag. */
  function TagRecord(row: Row<TagCols>): (r: Tag)
    ensures r.id == row.id && r.name == row.cols.name && !r.IsEmpty()
  {
    Tag(row.id, row.cols.name, Timestamp(row.cols.createdAt))
  }

  /** A slice built by appending: nil until the first element arrives. */
  function Hydrate(ts: seq<Tag>): (slice: Option<seq<Tag>>)
    ensures slice.None? <==> ts == []
    ensures slice.Some? ==> slice.value == ts
  {
    if ts == [] then None else Some(ts)
  }

  // ---------------------------------------------------------------- the join

  /** An association row contributes tag `t` to the join for `todoId`. */
  predicate Joins(link: Row<LinkCols>, tags: seq<Row<TagCols>>, todoId: int, t: Tag) {
    link.cols.todoId == todoId && Lookup(tags, link.cols.tagId).Some?
    && t == TagRecord(Lookup(tags, link.cols.tagId).value)
  }

  /**
   * SELECT t.* FROM todos_tags jt JOIN tags t ON t.id = jt.tag_id WHERE jt.todo_id = ?,
   * with the association table as the outer loop: one tag per association
   * row of the todo, in association-table order, skipping rows whose tag is gone.
   */
  function JoinTags(links: seq<Row<LinkCols>>, tags: seq<Row<TagCols>>, todoId: int): (joined: seq<Tag>)
    ensures |joined| <= |links|
  {
    if links == [] then []
    else
      var link := links[|links| - 1];
      var prefix := JoinTags(links[..|links| - 1], tags, todoId);
      if link.cols.todoId == todoId && Lookup(tags, link.cols.tagId).Some? then
        prefix + [TagRecord(Lookup(tags, link.cols.tagId).value)]
      else prefix
  }

  /**
   * A tag is in the join exactly when some association row of the todo
   * names a tag row that still exists, and the tag is that row.
   */
  lemma {:induction false} JoinTagsMembers(links: seq<Row<LinkCols>>, tags: seq<Row<TagCols>>,
                                           todoId: int, t: Tag)
    ensures t in JoinTags(links, tags, todoId) <==>
            exists i :: 0 <= i < |links| && Joins(links[i], tags, todoId, t)
  {
    if links != [] {
      var n := |links| - 1;
      var prefix := links[..n];
      JoinTagsMembers(prefix, tags, todoId, t);
      assert forall i :: 0 <= i < n ==> prefix[i] == links[i];
      if exists i :: 0 <= i < |links| && Joins(links[i], tags, todoId, t) {
        var i :| 0 <= i < |links| && Joins(links[i], tags, todoId, t);
        if i < n {
          assert Joins(prefix[i], tags, todoId, t);
        }
      }
    }
  }

  /** A todo that no association row names joins no tags. */
  lemma JoinTagsUnreferenced(links: seq<Row<LinkCols>>, tags: seq<Row<TagCols>>, todoId: int)
    requires forall i :: 0 <= i < |links| ==> links[i].cols.todoId != todoId
    ensures JoinTags(links, tags, todoId) == []
  {
  }

  /**
   * Associating an existing tag with a todo appends that tag at the end of
   * the todo's join; a second association of the same pair repeats it.
   */
  lemma AssociateThenJoin(links: seq<Row<LinkCols>>, tags: seq<Row<TagCols>>, k: int,
                          todoId: int, tagId: int)
    requires Lookup(tags, tagId).Some?
    ensures JoinTags(links + [Row(k, LinkCols(todoId, tagId))], tags, todoId)
         == JoinTags(links, tags, todoId) + [TagRecord(Lookup(tags, tagId).value)]
  {
  }

  /** Association rows of other todos do not change a todo's join. */
  lemma AssociateOtherTodo(links: seq<Row<LinkCols>>, tags: seq<Row<TagCols>>, k: int,
                           todoId: int, otherId: int, tagId: int)
    requires otherId != todoId
    ensures JoinTags(links + [Row(k, LinkCols(otherId, tagId))], tags, todoId)
         == JoinTags(links, tags, todoId)
  {
  }

  /** The tags of a list other than those with key `tagId`, in order. */
  function DropTag(ts: seq<Tag>, tagId: int): seq<Tag> {
    if ts == [] then []
    else DropTag(ts[..|ts| - 1], tagId) + (if ts[|ts| - 1].id == tagId then [] else [ts[|ts| - 1]])
  }

  /**
   * Deleting a tag row leaves its association rows orphaned; the join then
   * omits that tag and keeps every other tag in place.
   */
  lemma {:induction false} JoinAfterTagDelete(links: seq<Row<LinkCols>>, tags: seq<Row<TagCols>>,
                                              todoId: int, tagId: int)
    ensures JoinTags(links, DeleteRows(tags, tagId), todoId) == DropTag(JoinTags(links, tags, todoId), tagId)
  {
    if links != [] {
      var n := |links| - 1;
      var link := links[n];
      JoinAfterTagDelete(links[..n], tags, todoId, tagId);
      LookupAfterDelete(tags, tagId, link.cols.tagId);
      var before := JoinTags(links[..n], tags, todoId);
      if link.cols.todoId == todoId && Lookup(tags, link.cols.tagId).Some? {
        var added := before + [TagRecord(Lookup(tags, link.cols.tagId).value)];
        assert added[..|added| - 1] == before;
      }
    }
  }

  // ---------------------------------------------------------------- the read-back

  /**
   * getTodo: the zero ToDo when no row has key `id`; otherwise the row's
   * fields with Tags set to the join, left nil when the join is empty.
   */
  function ReadTodo(todos: seq<Row<TodoCols>>, tags: seq<Row<TagCols>>, links: seq<Row<LinkCols>>,
                    id: int): (r: ToDo)
    ensures r.IsEmpty() <==> Lookup(todos, id).None?
    ensures Lookup(todos, id).Some? ==>
              var row := Lookup(todos, id).value;
              r.id == id && r.title == row.cols.title && r.description == row.cols.description
              && r.createdAt == Timestamp(row.cols.createdAt)
              && r.updatedAt == Timestamp(row.cols.updatedAt) && r.status == row.cols.status
    ensures r.tags.Some? <==> Lookup(todos, id).Some? && JoinTags(links, tags, id) != []
    ensures r.tags.Some? ==> r.tags.value == JoinTags(links, tags, id)
  {
    match Lookup(todos, id)
    case None => EmptyToDo
    case Some(row) => TodoRecord(row).(tags := Hydrate(JoinTags(links, tags, id)))
  }

  // ---------------------------------------------------------------- updates

  /**
   * UPDATE todos SET title, description, status, updatedAt WHERE id = ?:
   * rows with that key get the new values, every other row and column stays.
   */
  function UpdateTodoRows(t: seq<Row<TodoCols>>, id: int, title: string, description: string,
                          status: ToDoStatus, now: nat): (r: seq<Row<TodoCols>>)
    ensures |r| == |t|
    ensures forall i :: 0 <= i < |t| && t[i].id != id ==> r[i] == t[i]
    ensures forall i :: 0 <= i < |t| && t[i].id == id ==>
              r[i] == Row(id, TodoCols(title, description, t[i].cols.createdAt, now, status))
  {
    if t == [] then []
    else
      var head := if t[0].id == id then Row(id, TodoCols(title, description, t[0].cols.createdAt, now, status))
                  else t[0];
      [head] + UpdateTodoRows(t[1..], id, title, description, status, now)
  }

  /** A lookup after the update sees the new values under the updated key, the old row elsewhere. */
  lemma {:induction false} LookupAfterUpdate(t: seq<Row<TodoCols>>, id: int, title: string,
                                             description: string, status: ToDoStatus, now: nat, k: int)
    ensures Lookup(UpdateTodoRows(t, id, title, description, status, now), k) ==
            match Lookup(t, k)
            case None => None
            case Some(row) =>
              Some(if k == id then Row(id, TodoCols(title, description, row.cols.createdAt, now, status))
                   else row)
  {
    if t != [] {
      LookupAfterUpdate(t[1..], id, title, description, status, now, k);
    }
  }

  /**
   * The update keeps keys ascending and timestamps ordered, and a key that
   * no row holds leaves the table unchanged.
   */
  lemma UpdateTodoRowsKeeps(t: seq<Row<TodoCols>>, tags: seq<Row<TagCols>>, clock: nat, id: int,
                            title: string, description: string, status: ToDoStatus, now: nat)
    requires KeysIncreasing(t) && Stamped(t, tags, clock) && clock <= now
    ensures var r := UpdateTodoRows(t, id, title, description, status, now);
            KeysIncreasing(r) && Stamped(r, tags, now)
            && (Lookup(t, id).None? ==> r == t)
  {
  }

  // ---------------------------------------------------------------- the store

  /** Every timestamp of the store is no later than the clock, and no row was updated before it was created. */
  ghost predicate Stamped(todos: seq<Row<TodoCols>>, tags: seq<Row<TagCols>>, clock: nat) {
    (forall row | row in todos :: row.cols.createdAt <= row.cols.updatedAt <= clock)
    && (forall row | row in tags :: row.cols.createdAt <= clock)
  }

  class Store {
    /** The tables that exist. */
    var tables: set<TableName>
    var todos: seq<Row<TodoCols>>
    var tags: seq<Row<TagCols>>
    var todoTags: seq<Row<LinkCols>>
    /** The current reading of the SQL clock. */
    var clock: nat

    ghost predicate Valid()
      reads this
    {
      KeysIncreasing(todos) && KeysIncreasing(tags) && KeysIncreasing(todoTags)
      && (Todos !in tables ==> todos == [])
      && (Tags !in tables ==> tags == [])
      && (TodosTags !in tables ==> todoTags == [])
      && Stamped(todos, tags, clock)
    }

    /** A new, empty database file: no tables yet. */
    constructor ()
      ensures Valid()
      ensures tables == {} && todos == [] && tags == [] && todoTags == [] && clock == 0
    {
      tables, todos, tags, todoTags, clock := {}, [], [], [], 0;
    }

    // ------------------------------------------------------------ schema

    /** CREATE TABLE IF NOT EXISTS for one table; the statement fails when `t` is in `failing`. */
    method Initialise(t: TableName, failing: set<TableName>) returns (err: Option<DbError>)
      requires Valid()
      modifies this`tables
      ensures Valid()
      ensures (tables, err) == CreateTables([t], old(tables), failing)
    {
      if t in failing {
        err := Some(SchemaError(t));
      } else {
        tables := tables + {t};
        err := None;
      }
    }

    /** checkOrCreateTables: the three tables in order, stopping at the first error. */
    method CheckOrCreateTables(failing: set<TableName>) returns (err: Option<DbError>)
      requires Valid()
      modifies this`tables
      ensures Valid()
      ensures (tables, err) == CreateTables(SchemaOrder, old(tables), failing)
    {
      err := Initialise(Todos, failing);
      if err.Some? {
        return;
      }
      err := Initialise(Tags, failing);
      if err.Some? {
        return;
      }
      err := Initialise(TodosTags, failing);
    }

    /** The schema step every operation runs on connecting, when no statement fails. */
    method Connect()
      requires Valid()
      modifies this`tables
      ensures Valid() && tables == AllTables
    {
      var err := CheckOrCreateTables({});
      CreateTablesStopsAtFirstFailure(SchemaOrder, old(tables), {}, 3);
      assert SchemaOrder[..3] == SchemaOrder;
      forall t | t in tables ensures t in AllTables {
        assert t == Todos || t == Tags || t == TodosTags;
      }
    }

    // ------------------------------------------------------------ todos

    /** insertTodo: stores title and description with status 0, then reads the new row back. */
    method InsertTodo(todo: ToDo, elapsed: nat) returns (r: ToDo)
      requires Valid()
      modifies this
      ensures Valid()
      ensures tables == AllTables && clock == old(clock) + elapsed
      ensures todos == old(todos) + [Row(NextRowId(old(todos)), TodoCols(todo.title, todo.description, clock, clock, Open))]
      ensures tags == old(tags) && todoTags == old(todoTags)
      ensures r == ReadTodo(todos, tags, todoTags, NextRowId(old(todos)))
      ensures !r.IsEmpty() && r.id == NextRowId(old(todos))
      ensures r.title == todo.title && r.description == todo.description && r.status == Open
      ensures r.createdAt == Timestamp(clock) && r.updatedAt == Timestamp(clock)
      ensures (forall i :: 0 <= i < |todoTags| ==> todoTags[i].cols.todoId != r.id) ==> r.tags == None
    {
      Connect();
      clock := clock + elapsed;
      var id := NextRowId(todos);
      var cols := TodoCols(todo.title, todo.description, clock, clock, Open);
      InsertKeepsIncreasing(todos, cols);
      LookupInserted(todos, cols);
      todos := todos + [Row(id, cols)];
      r := GetTodo(id);
      if forall i :: 0 <= i < |todoTags| ==> todoTags[i].cols.todoId != id {
        JoinTagsUnreferenced(todoTags, tags, id);
      }
    }

    /** getTodo: the row with its tags, or the zero ToDo (and no error) when there is none. */
    method GetTodo(id: int) returns (r: ToDo)
      ensures r == ReadTodo(todos, tags, todoTags, id)
      ensures r.IsEmpty() <==> Lookup(todos, id).None?
    {
      match Lookup(todos, id)
      case None =>
        r := EmptyToDo;
      case Some(row) =>
        var ts := GetTagsOfTodo(id);
        r := TodoRecord(row).(tags := ts);
    }

    /** getAllTodos: one ToDo per row in storage order, Tags never filled in. */
    method GetAllTodos() returns (r: seq<ToDo>)
      ensures |r| == |todos|
      ensures forall i :: 0 <= i < |r| ==> r[i] == TodoRecord(todos[i]) && r[i].tags == None
    {
      r := [];
      var i := 0;
      while i < |todos|
        invariant 0 <= i <= |todos|
        invariant |r| == i
        invariant forall k :: 0 <= k < i ==> r[k] == TodoRecord(todos[k])
      {
        r := r + [TodoRecord(todos[i])];
        i := i + 1;
      }
    }

    /** updateTodo: overwrites title, description, status and updatedAt of one row, then reads it back. */
    method UpdateTodo(id: int, todo: ToDo, elapsed: nat) returns (r: ToDo)
      requires Valid()
      modifies this
      ensures Valid()
      ensures tables == AllTables && clock == old(clock) + elapsed
      ensures todos == UpdateTodoRows(old(todos), id, todo.title, todo.description, todo.status, clock)
      ensures tags == old(tags) && todoTags == old(todoTags)
      ensures r == ReadTodo(todos, tags, todoTags, id)
      ensures Lookup(old(todos), id).None? ==> todos == old(todos) && r.IsEmpty()
      ensures Lookup(old(todos), id).Some? ==>
                var row := Lookup(old(todos), id).value;
                r.id == id && r.title == todo.title && r.description == todo.description
                && r.status == todo.status && r.createdAt == Timestamp(row.cols.createdAt)
                && r.updatedAt == Timestamp(clock) && row.cols.updatedAt <= clock
    {
      Connect();
      clock := clock + elapsed;
      UpdateTodoRowsKeeps(todos, tags, old(clock), id, todo.title, todo.description, todo.status, clock);
      LookupAfterUpdate(todos, id, todo.title, todo.description, todo.status, clock, id);
      todos := UpdateTodoRows(todos, id, todo.title, todo.description, todo.status, clock);
      r := GetTodo(id);
    }

    /** deleteTodo: removes the row and returns how many went; association rows stay. */
    method DeleteTodo(id: int) returns (affected: int)
      requires Valid()
      modifies this
      ensures Valid()
      ensures tables == AllTables && clock == old(clock)
      ensures todos == DeleteRows(old(todos), id)
      ensures tags == old(tags) && todoTags == old(todoTags)
      ensures affected == if Lookup(old(todos), id).Some? then 1 else 0
      ensures ReadTodo(todos, tags, todoTags, id).IsEmpty()
    {
      Connect();
      var count := |todos|;
      DeleteCount(todos, id);
      DeleteKeepsIncreasing(todos, id);
      LookupAfterDelete(todos, id, id);
      todos := DeleteRows(todos, id);
      affected := count - |todos|;
    }

    // ------------------------------------------------------------ tags

    /** getTagsOfTodo: scans the join for the todo, appending each tag to an initially nil slice. */
    method GetTagsOfTodo(id: int) returns (ts: Option<seq<Tag>>)
      ensures ts == Hydrate(JoinTags(todoTags, tags, id))
    {
      ts := None;
      var i := 0;
      while i < |todoTags|
        invariant 0 <= i <= |todoTags|
        invariant ts == Hydrate(JoinTags(todoTags[..i], tags, id))
      {
        assert todoTags[..i + 1][..i] == todoTags[..i];
        var link := todoTags[i];
        if link.cols.todoId == id {
          match Lookup(tags, link.cols.tagId)
          case Some(row) =>
            ts := Some(ts.GetOr([]) + [TagRecord(row)]);
          case None =>
        }
        i := i + 1;
      }
      assert todoTags[..i] == todoTags;
    }

    /** insertTag: stores the name under the column's NUMERIC affinity, then reads the new row back. */
    method InsertTag(tag: Tag, elapsed: nat) returns (r: Tag)
      requires Valid()
      modifies this
      ensures Valid()
      ensures tables == AllTables && clock == old(clock) + elapsed
      ensures tags == old(tags) + [Row(NextRowId(old(tags)), TagCols(StoredName(tag.name), clock))]
      ensures todos == old(todos) && todoTags == old(todoTags)
      ensures r == Tag(NextRowId(old(tags)), StoredName(tag.name), Timestamp(clock)) && !r.IsEmpty()
      ensures !IsIntegerLiteral(tag.name) ==> r.name == tag.name
    {
      Connect();
      clock := clock + elapsed;
      var id := NextRowId(tags);
      var cols := TagCols(StoredName(tag.name), clock);
      InsertKeepsIncreasing(tags, cols);
      LookupInserted(tags, cols);
      tags := tags + [Row(id, cols)];
      var err;
      r, err := GetTag(id);
      assert err == None;
    }

    /** getTag: the row, or the zero Tag together with ErrNoRows when there is none. */
    method GetTag(id: int) returns (r: Tag, err: Option<DbError>)
      ensures Lookup(tags, id).None? ==> r.IsEmpty() && err == Some(ErrNoRows)
      ensures Lookup(tags, id).Some? ==> r == TagRecord(Lookup(tags, id).value) && r.id == id && err == None
    {
      match Lookup(tags, id)
      case None =>
        r, err := EmptyTag, Some(ErrNoRows);
      case Some(row) =>
        r, err := TagRecord(row), None;
    }

    /** deleteTag: removes the row and returns how many went; association rows stay. */
    method DeleteTag(id: int) returns (affected: int)
      requires Valid()
      modifies this
      ensures Valid()
      ensures tables == AllTables && clock == old(clock)
      ensures tags == DeleteRows(old(tags), id)
      ensures todos == old(todos) && todoTags == old(todoTags)
      ensures affected == if Lookup(old(tags), id).Some? then 1 else 0
      ensures Lookup(tags, id).None?
    {
      Connect();
      var count := |tags|;
      DeleteCount(tags, id);
      DeleteKeepsIncreasing(tags, id);
      LookupAfterDelete(tags, id, id);
      tags := DeleteRows(tags, id);
      affected := count - |tags|;
    }

    /** getAllTags: one Tag per row in storage order. */
    method GetAllTags() returns (r: seq<Tag>)
      ensures |r| == |tags|
      ensures forall i :: 0 <= i < |r| ==> r[i] == TagRecord(tags[i])
    {
      r := [];
      var i := 0;
      while i < |tags|
        invariant 0 <= i <= |tags|
        invariant |r| == i
        invariant forall k :: 0 <= k < i ==> r[k] == TagRecord(tags[k])
      {
        r := r + [TagRecord(tags[i])];
        i := i + 1;
      }
    }

    // ------------------------------------------------------------ association

    /** associateTag: appends a join row with no check on either key or on duplicates. */
    method AssociateTag(tagId: int, todoId: int) returns (id: int)
      requires Valid()
      modifies this
      ensures Valid()
      ensures tables == AllTables && clock == old(clock)
      ensures id == NextRowId(old(todoTags))
      ensures todoTags == old(todoTags) + [Row(id, LinkCols(todoId, tagId))]
      ensures todos == old(todos) && tags == old(tags)
    {
      Connect();
      id := NextRowId(todoTags);
      InsertKeepsIncreasing(todoTags, LinkCols(todoId, tagId));
      todoTags := todoTags + [Row(id, LinkCols(todoId, tagId))];
    }
  }
}
