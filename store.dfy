/**
 * The Supabase service the handlers call, as an abstract store: named tables of rows
 * and named storage buckets of object paths. The store keeps the history of the
 * operations it served; any operation may be refused with an error (network,
 * permission or constraint failures, which the handlers cannot tell apart), and two
 * refusals are intrinsic: `.single()` when not exactly one row matches, and an upload
 * to a path already taken.
 */
module Store {
  import opened Wrappers
  import opened JsValues

  type Row = map<string, Json>

  /** `.eq(column, value)`: the service receives the value as the text `${value}`. */
  datatype Filter = Eq(column: string, value: string)

  datatype StoreError = StoreError(code: string, message: string)

  datatype Op =
    | SelectSingle(table: string, column: string, filter: Filter)  // from(table).select(column).eq(...).single()
    | Insert(table: string, row: Row)                              // from(table).insert(row)
    | Update(table: string, patch: Row, filter: Filter)            // from(table).update(patch).eq(...)
    | Delete(table: string, filter: Filter)                        // from(table).delete().eq(...)
    | Upload(bucket: string, path: string)                         // storage.from(bucket).upload(path, file)
    | Remove(bucket: string, paths: seq<string>)                   // storage.from(bucket).remove(paths)

  datatype Reply = Done | Found(row: Row) | Failed(error: StoreError)

  datatype Event = Event(op: Op, reply: Reply)

  datatype State = State(tables: map<string, seq<Row>>, buckets: map<string, set<string>>)

  /** PostgREST's code for "JSON object requested, multiple (or no) rows returned". */
  const NoSingleRow := "PGRST116"

  const NotSingle := StoreError(NoSingleRow, "JSON object requested, multiple (or no) rows returned")
  const PathTaken := StoreError("Duplicate", "The resource already exists")

  function Rows(s: State, table: string): seq<Row>
  {
    if table in s.tables then s.tables[table] else []
  }

  function Paths(s: State, bucket: string): set<string>
  {
    if bucket in s.buckets then s.buckets[bucket] else {}
  }

  /** A row matches when its column, as text, is the filter's text. */
  predicate Matches(row: Row, filter: Filter)
  {
    filter.column in row && JsString(row[filter.column]) == filter.value
  }

  function Matching(rows: seq<Row>, filter: Filter): (r: seq<Row>)
    ensures forall i :: 0 <= i < |r| ==> Matches(r[i], filter)
    ensures |r| <= |rows|
  {
    if rows == [] then []
    else (if Matches(rows[0], filter) then [rows[0]] else []) + Matching(rows[1..], filter)
  }

  /** `.select(column)`: only the selected column of the row is returned. */
  function Project(row: Row, column: string): Row
  {
    map[column := if column in row then row[column] else JNull]
  }

  /** The patched rows of an update: matching rows take the patch's values. */
  function Patched(rows: seq<Row>, patch: Row, filter: Filter): (r: seq<Row>)
    ensures |r| == |rows|
  {
    if rows == [] then []
    else [if Matches(rows[0], filter) then rows[0] + patch else rows[0]] + Patched(rows[1..], patch, filter)
  }

  /** The reply to `op` in state `s`, when the service does (None) or does not refuse it. */
  function Outcome(s: State, op: Op, refusal: Option<StoreError>): Reply
  {
    if refusal.Some? then Failed(refusal.value)
    else match op
      case SelectSingle(table, column, filter) =>
        var found := Matching(Rows(s, table), filter);
        if |found| == 1 then Found(Project(found[0], column)) else Failed(NotSingle)
      case Upload(bucket, path) => if path in Paths(s, bucket) then Failed(PathTaken) else Done
      case _ => Done
  }

  /** The state after `op`: unchanged when the operation fails. */
  function After(s: State, op: Op, refusal: Option<StoreError>): State
  {
    if Outcome(s, op, refusal).Failed? then s
    else match op
      case SelectSingle(_, _, _) => s
      case Insert(table, row) => s.(tables := s.tables[table := Rows(s, table) + [row]])
      case Update(table, patch, filter) => s.(tables := s.tables[table := Patched(Rows(s, table), patch, filter)])
      case Delete(table, filter) =>
        s.(tables := s.tables[table := Without(Rows(s, table), filter)])
      case Upload(bucket, path) => s.(buckets := s.buckets[bucket := Paths(s, bucket) + {path}])
      case Remove(bucket, paths) => s.(buckets := s.buckets[bucket := Paths(s, bucket) - set i | 0 <= i < |paths| :: paths[i]])
  }

  function Without(rows: seq<Row>, filter: Filter): (r: seq<Row>)
    ensures forall i :: 0 <= i < |r| ==> !Matches(r[i], filter)
    ensures |r| <= |rows|
  {
    if rows == [] then []
    else (if Matches(rows[0], filter) then [] else [rows[0]]) + Without(rows[1..], filter)
  }

  /** The state reached from `s0` by the operations of a history. */
  ghost function Replay(s0: State, events: seq<Event>, refuse: Op -> Option<StoreError>): State
  {
    if events == [] then s0
    else
      var last := events[|events| - 1];
      var before := Replay(s0, events[..|events| - 1], refuse);
      After(before, last.op, refuse(last.op))
  }

  /** Every reply of a history is the one its operation had in the state it met. */
  ghost predicate Consistent(s0: State, events: seq<Event>, refuse: Op -> Option<StoreError>)
  {
    if events == [] then true
    else
      var last := events[|events| - 1];
      var earlier := events[..|events| - 1];
      Consistent(s0, earlier, refuse) && last.reply == Outcome(Replay(s0, earlier, refuse), last.op, refuse(last.op))
  }

  lemma MatchingAppend(rows: seq<Row>, row: Row, filter: Filter)
    ensures Matching(rows + [row], filter) == Matching(rows, filter) + (if Matches(row, filter) then [row] else [])
  {
    if rows != [] {
      assert (rows + [row])[1..] == rows[1..] + [row];
      MatchingAppend(rows[1..], row, filter);
    }
  }

  /** Once a row is inserted where none matched, `.single()` finds exactly that row. */
  lemma InsertedRowIsSingle(s: State, table: string, row: Row, column: string, filter: Filter)
    requires Matching(Rows(s, table), filter) == []
    requires Matches(row, filter)
    ensures Outcome(After(s, Insert(table, row), None), SelectSingle(table, column, filter), None) == Found(Project(row, column))
  {
    MatchingAppend(Rows(s, table), row, filter);
  }

  /** An uploaded path is taken: uploading it again fails and changes nothing. */
  lemma UploadedPathIsTaken(s: State, bucket: string, path: string, refusal: Option<StoreError>)
    requires Outcome(s, Upload(bucket, path), refusal) == Done
    ensures var s1 := After(s, Upload(bucket, path), refusal);
      Outcome(s1, Upload(bucket, path), None) == Failed(PathTaken) && After(s1, Upload(bucket, path), None) == s1
  {
  }

  /** A delete leaves exactly the rows that do not match, in their order. */
  lemma {:induction false} DeleteKeepsNonMatching(rows: seq<Row>, filter: Filter)
    ensures forall r :: r in Without(rows, filter) <==> r in rows && !Matches(r, filter)
  {
    if rows != [] {
      DeleteKeepsNonMatching(rows[1..], filter);
      assert rows == [rows[0]] + rows[1..];
    }
  }

  /** An update changes the matching rows only, each by the patch. */
  lemma {:induction false} UpdateTouchesMatching(rows: seq<Row>, patch: Row, filter: Filter)
    ensures forall i :: 0 <= i < |rows| ==>
      Patched(rows, patch, filter)[i] == if Matches(rows[i], filter) then rows[i] + patch else rows[i]
  {
    if rows != [] {
      UpdateTouchesMatching(rows[1..], patch, filter);
    }
  }

  /** A log that extends `before` by `e` and then more events: its new part starts with `e`. */
  lemma NewEventsAfterStep(before: seq<Event>, e: Event, log: seq<Event>)
    requires |before| + 1 <= |log| && log[..|before| + 1] == before + [e]
    ensures log[..|before|] == before
    ensures log[|before|..] == [e] + log[|before| + 1..]
  {
    assert log[..|before|] == (before + [e])[..|before|];
    assert log[|before|] == (before + [e])[|before|];
  }

  /** A log that extends `before` by one event: the new part is that event. */
  lemma OneNewEvent(before: seq<Event>, e: Event, log: seq<Event>)
    requires log == before + [e]
    ensures log[..|before|] == before && log[|before|..] == [e]
  {
  }

  /** A log that extends `before` by two events: the new part is those events, in order. */
  lemma TwoNewEvents(before: seq<Event>, e1: Event, e2: Event, log: seq<Event>)
    requires log == before + [e1] + [e2]
    ensures log[..|before|] == before && log[|before|..] == [e1, e2]
  {
  }

  /** The Supabase project behind `createSupabaseAdmin()`, with the history of what it served. */
  class Supabase {
    /** Which operations the service refuses, and with what error. */
    const refuse: Op -> Option<StoreError>
    ghost const initial: State
    var state: State
    var log: seq<Event>

    ghost predicate Valid()
      reads this
    {
      Replay(initial, log, refuse) == state && Consistent(initial, log, refuse)
    }

    constructor (initial: State, refuse: Op -> Option<StoreError>)
      ensures Valid() && this.initial == initial && this.refuse == refuse
      ensures state == initial && log == []
    {
      this.refuse := refuse;
      this.initial := initial;
      state := initial;
      log := [];
    }

    /** Serve one operation: reply as `Outcome` says, move to `After`, record it. */
    method Perform(op: Op) returns (reply: Reply)
      requires Valid()
      modifies this
      ensures Valid()
      ensures reply == Outcome(old(state), op, refuse(op))
      ensures state == After(old(state), op, refuse(op))
      ensures log == old(log) + [Event(op, reply)]
    {
      reply := Outcome(state, op, refuse(op));
      var next := After(state, op, refuse(op));
      ghost var before := log;
      log := log + [Event(op, reply)];
      assert log[..|before|] == before;
      state := next;
    }
  }
}
