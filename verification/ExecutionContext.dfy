/**
 * The state of one chaincode invocation: a lazily opened query view, the
 * versions it read and the writes it will propose
 * (compatibility_service/pkg/helper/service.go:184-384).
 */
module InvocationState {
  import opened Common

  type Data = seq<int>

  /** A committed row; versions of a key never repeat. */
  datatype Row = Row(value: Data, version: nat)
  type Rows = map<string, Row>

  datatype Write = Put(value: Data) | Delete
  datatype Answer = Answered(value: Data) | ReadFailed(reason: string)

  function ValueIn(rows: Rows, key: string): Data {
    if key in rows then rows[key].value else []
  }

  /** The version recorded for MVCC validation: nil for an absent key. */
  function VersionIn(rows: Rows, key: string): Option<nat> {
    if key in rows then Some(rows[key].version) else None
  }

  /** Query Service as one invocation sees it: how it begins a view, what a view shows, and which of its reads fail. */
  class StateReader {
    const begins: Option<string>
    const shows: string -> Rows
    const fails: nat -> bool
    var begun: nat
    var calls: nat
    var ended: seq<string>

    constructor (begins: Option<string>, shows: string -> Rows, fails: nat -> bool)
      ensures this.begins == begins && this.shows == shows && this.fails == fails
      ensures begun == 0 && calls == 0 && ended == []
    {
      this.begins, this.shows, this.fails := begins, shows, fails;
      begun, calls, ended := 0, 0, [];
    }

    method BeginView() returns (view: Option<string>)
      modifies this`begun
      ensures view == begins && begun == old(begun) + 1
    {
      begun := begun + 1;
      view := begins;
    }

    /** QueryServiceStateReader.GetState: the row under the view, or nothing with a nil version. */
    method Read(view: string, key: string) returns (row: Option<(Data, Option<nat>)>)
      modifies this`calls
      ensures row == if fails(old(calls)) then None else Some((ValueIn(shows(view), key), VersionIn(shows(view), key)))
      ensures calls == old(calls) + 1
    {
      var failed := fails(calls);
      calls := calls + 1;
      row := if failed then None else Some((ValueIn(shows(view), key), VersionIn(shows(view), key)));
    }

    method EndView(view: string)
      modifies this`ended
      ensures ended == old(ended) + [view]
    {
      ended := ended + [view];
    }
  }

  predicate Usable(view: Option<string>) {
    view.Some? && view.value != ""
  }

  class ExecutionContext {
    const reader: StateReader?
    var queryView: Option<string>
    var viewOwned: bool
    var closed: bool
    var readErr: Option<string>
    var readSet: map<string, Option<nat>>
    var writeSet: map<string, Write>

    /**
     * At most one view is begun, and a failed attempt is never repeated; a view
     * begun here, and no other, is ended once on closing; every recorded version is
     * the one shown by the single view in use.
     */
    ghost predicate Valid()
      reads this, reader
    {
      && (viewOwned ==> reader != null && Usable(queryView) && reader.begins == queryView && reader.begun == 1)
      && (reader != null ==>
            && reader.begun <= 1 && (reader.begun == 1 && !viewOwned ==> readErr.Some? && !Usable(reader.begins))
            && reader.ended == if closed && viewOwned then [queryView.value] else [])
      && (readSet != map[] ==> reader != null && queryView.Some?)
      && forall k | k in readSet :: readSet[k] == VersionIn(Source(), k)
    }

    /** What the view in use shows, or the view a first read would begin. */
    ghost function Source(): Rows
      reads this
    {
      if reader == null then map[]
      else if queryView.Some? then reader.shows(queryView.value)
      else if reader.begins.Some? then reader.shows(reader.begins.value)
      else map[]
    }

    /** NewExecutionContextWithView; NewExecutionContext passes no view. */
    constructor (reader: StateReader?, view: Option<string>)
      requires reader != null ==> reader.begun == 0 && reader.ended == []
      ensures Valid() && this.reader == reader && queryView == view && !viewOwned && !closed && readErr.None?
      ensures readSet == map[] && writeSet == map[]
    {
      this.reader := reader;
      queryView, viewOwned, closed, readErr := view, false, false, None;
      readSet, writeSet := map[], map[];
    }

    method SetQueryView(view: string) returns (ok: bool)
      requires Valid()
      modifies this
      ensures Valid() && readSet == old(readSet) && writeSet == old(writeSet) && closed == old(closed)
        && readErr == old(readErr)
      ensures ok <==> !old(closed) && old(queryView).None? && old(readErr).None?
      ensures queryView == (if ok then Some(view) else old(queryView)) && viewOwned == old(viewOwned)
    {
      if closed || queryView.Some? || readErr.Some? { return false; }
      queryView := Some(view);
      ok := true;
    }

    /** A read can succeed: open, no earlier failure, a reader with a usable view, and this call does not fail. */
    ghost predicate Readable(ctx: Context)
      reads this, reader, ctx
    {
      && !closed && readErr.None? && !ctx.Expired() && reader != null
      && (queryView.Some? || Usable(reader.begins))
      && !reader.fails(reader.calls)
    }

    /** The view of an invocation that has none: begun on its first read. */
    method OpenView()
      requires Valid() && reader != null && queryView.None? && readErr.None? && !closed
      modifies this`queryView, this`viewOwned, this`readErr, reader`begun
      ensures Valid() && Source() == old(Source())
      ensures readErr.None? <==> Usable(reader.begins)
      ensures readErr.None? ==> queryView == reader.begins
    {
      var view := reader.BeginView();
      if view.None? {
        readErr := Some("begin execution query view");
        return;
      }
      if view.value == "" {
        readErr := Some("query service returned an empty execution view");
        return;
      }
      queryView, viewOwned := view, true;
    }

    method GetState(ctx: Context, key: string) returns (r: Answer)
      requires Valid()
      modifies this, reader, ctx
      ensures Valid() && Source() == old(Source())
      ensures writeSet == old(writeSet) && closed == old(closed)
      ensures r.Answered? <==> old(Readable(ctx))
      ensures r.Answered? ==>
        r.value == ValueIn(Source(), key) && readSet == old(readSet)[key := VersionIn(Source(), key)] && readErr.None?
      ensures r.Answered? && key in Source() ==>
        && r.value == Source()[key].value
        && readSet == old(readSet)[key := Some(Source()[key].version)]
      ensures r.Answered? && key !in Source() ==> r.value == [] && readSet == old(readSet)[key := None]
      ensures r.ReadFailed? ==> readSet == old(readSet) && (old(closed) || readErr.Some?)
      ensures old(closed) ==> readErr == old(readErr) && r.ReadFailed?
      ensures old(readErr).Some? ==> readErr == old(readErr)
      ensures old(queryView).Some? ==> queryView == old(queryView) && viewOwned == old(viewOwned)
      ensures ctx.polls >= old(ctx.polls)
    {
      if closed { return ReadFailed("execution context is closed"); }
      if readErr.Some? { return ReadFailed(readErr.value); }
      var canceled := ctx.Err();
      if canceled {
        readErr := Some("context");
        return ReadFailed("context");
      }
      if reader == null {
        readErr := Some("committed-state reader is not configured");
        return ReadFailed(readErr.value);
      }
      if queryView.None? {
        OpenView();
        if readErr.Some? { return ReadFailed(readErr.value); }
      }
      r := ReadInView(key);
    }

    /** The read itself, once there is a view: one version recorded, or a sticky failure. */
    method ReadInView(key: string) returns (r: Answer)
      requires Valid() && reader != null && readErr.None? && queryView.Some?
      modifies this`readSet, this`readErr, reader`calls
      ensures Valid() && Source() == old(Source())
      ensures r.Answered? <==> !old(reader.fails(reader.calls))
      ensures if r.Answered? then
          r.value == ValueIn(Source(), key) && readSet == old(readSet)[key := VersionIn(Source(), key)] && readErr.None?
        else readSet == old(readSet) && readErr.Some?
    {
      var row := reader.Read(queryView.value, key);
      if row.None? {
        readErr := Some("read committed state in execution query view");
        return ReadFailed(readErr.value);
      }
      readSet := readSet[key := row.value.1];
      r := Answered(row.value.0);
    }

    method PutState(key: string, value: Data)
      requires Valid()
      modifies this`writeSet
      ensures Valid() && writeSet == old(writeSet)[key := Put(value)]
    {
      writeSet := writeSet[key := Put(value)];
    }

    method DelState(key: string)
      requires Valid()
      modifies this`writeSet
      ensures Valid() && writeSet == old(writeSet)[key := Delete]
    {
      writeSet := writeSet[key := Delete];
    }

    method Close()
      requires Valid()
      modifies this`closed, reader
      ensures Valid() && closed
      ensures reader != null ==> reader.ended == if viewOwned then [queryView.value] else []
    {
      if closed { return; }
      closed := true;
      if !viewOwned { return; }
      reader.EndView(queryView.value);
    }

    /** The captured read/write set: one entry per key, in map order. */
    method Result() returns (rws: ReadWriteSet)
      ensures Lists(rws.reads', readSet) && Lists(rws.writes, writeSet)
    {
      var reads' := Entries(readSet);
      var writes := Entries(writeSet);
      rws := ReadWriteSet(reads', writes);
    }
  }

  datatype ReadWriteSet = ReadWriteSet(reads': seq<(string, Option<nat>)>, writes: seq<(string, Write)>)

  /** The entries are those of the map, each key once. */
  ghost predicate Lists<T>(entries: seq<(string, T)>, m: map<string, T>) {
    && (forall i, j :: 0 <= i < j < |entries| ==> entries[i].0 != entries[j].0)
    && (forall i :: 0 <= i < |entries| ==> entries[i].0 in m && m[entries[i].0] == entries[i].1)
    && (forall k | k in m :: exists i :: 0 <= i < |entries| && entries[i].0 == k)
  }

  method Entries<T>(m: map<string, T>) returns (entries: seq<(string, T)>)
    ensures Lists(entries, m)
  {
    entries := [];
    var left := m.Keys;
    while left != {}
      invariant left <= m.Keys
      invariant forall i, j :: 0 <= i < j < |entries| ==> entries[i].0 != entries[j].0
      invariant forall i :: 0 <= i < |entries| ==>
        entries[i].0 in m && entries[i].0 !in left && m[entries[i].0] == entries[i].1
      invariant forall k | k in m && k !in left :: exists i :: 0 <= i < |entries| && entries[i].0 == k
      decreases left
    {
      var k :| k in left;
      left := left - {k};
      ghost var before := entries;
      entries := entries + [(k, m[k])];
      assert entries[|before|].0 == k;
      forall other | other in m && other !in left ensures exists i :: 0 <= i < |entries| && entries[i].0 == other {
        if other != k {
          var i :| 0 <= i < |before| && before[i].0 == other;
          assert entries[i].0 == other;
        }
      }
    }
  }
}
