/** The per-user memory object (`CodeReviewMemory`): an in-memory history list,
    lazily loaded from the object's storage, appended to and capped at fifty entries,
    and written back whole after every append. */
module Memory {
  import opened JsValues
  import opened Records
  import Seqs

  /** The most records one user's history keeps. */
  const MaxHistory: nat := 50

  /** One memory object: the `history` field it holds in memory, and the value stored
      under its single storage key `'history'` (None while nothing was ever stored). */
  datatype Object = Object(history: seq<Record>, stored: Option<seq<Record>>)

  /** A request the object is sent: HTTP method, URL path, and the JSON body when there is one. */
  datatype Request = Request(verb: string, path: string, body: Option<Record>)

  /** What the object answers: the history as JSON, `{success: true}`, a 404,
      or a rejection (a POST to `/store` whose body is not a record). */
  datatype Reply = HistoryJson(records: seq<Record>) | StoreOk | NotFound | Rejected

  /** A freshly constructed object over existing storage: the constructor starts
      with an empty in-memory history and reads nothing. */
  function Construct(stored: Option<seq<Record>>): (r: Object)
    ensures Reconciled(r)
    ensures View(r) == stored.GetOr([])
  {
    Object([], stored)
  }

  /** The history the object answers with: the in-memory list once it is non-empty,
      otherwise whatever storage holds. */
  function View(o: Object): seq<Record> {
    if o.history == [] then o.stored.GetOr([]) else o.history
  }

  /** In-memory and stored history agree once the memory list is non-empty. */
  predicate Reconciled(o: Object) {
    o.history == [] || o.stored == Some(o.history)
  }

  /** Neither copy of the history exceeds the cap. */
  predicate Bounded(o: Object) {
    |o.history| <= MaxHistory && (o.stored.Some? ==> |o.stored.value| <= MaxHistory)
  }

  /** Lazy initialisation, run at the start of every request: an empty in-memory history
      is replaced by the stored one (or by [] when nothing is stored); a non-empty one is
      never reloaded, and storage is only read. */
  function Load(o: Object): (r: Object)
    ensures r.stored == o.stored
    ensures o.history != [] ==> r.history == o.history
    ensures o.history == [] && o.stored.Some? ==> r.history == o.stored.value
    ensures o.history == [] && o.stored.None? ==> r.history == []
    ensures View(r) == View(o)
  {
    if |o.history| == 0 then Object(o.stored.GetOr([]), o.stored) else o
  }

  /** Push the record, then keep only the last fifty. */
  function AppendCapped(history: seq<Record>, rec: Record): (r: seq<Record>)
    ensures |r| <= MaxHistory
    ensures |r| > 0 && r[|r| - 1] == rec
    ensures r == Seqs.Last(history + [rec], MaxHistory)
  {
    var pushed := history + [rec];
    if |pushed| > MaxHistory then pushed[|pushed| - MaxHistory..] else pushed
  }

  /** Under the cap nothing is dropped: the record is simply added at the end. */
  lemma AppendUnderCap(history: seq<Record>, rec: Record)
    requires |history| < MaxHistory
    ensures AppendCapped(history, rec) == history + [rec]
  {
  }

  /** At the cap exactly the oldest record is dropped. */
  lemma AppendAtCap(history: seq<Record>, rec: Record)
    requires |history| == MaxHistory
    ensures AppendCapped(history, rec) == history[1..] + [rec]
  {
    assert (history + [rec])[1..] == history[1..] + [rec];
  }

  /** The object's request handler: load, then `/history` (any method), then POST `/store`,
      otherwise 404. */
  function Fetch(o: Object, req: Request): (r: (Object, Reply))
    ensures r.1 == StoreOk <==> req.path == "/store" && req.verb == "POST" && req.body.Some?
    ensures r.1 != StoreOk ==> r.0.stored == o.stored && View(r.0) == View(o)
    ensures r.1 == StoreOk ==> r.0.history != [] && r.0.stored == Some(r.0.history)
  {
    var loaded := Load(o);
    if req.path == "/history" then
      (loaded, HistoryJson(loaded.history))
    else if req.path == "/store" && req.verb == "POST" then
      match req.body
      case None => (loaded, Rejected)
      case Some(rec) =>
        var h := AppendCapped(loaded.history, rec);
        (Object(h, Some(h)), StoreOk)
    else
      (loaded, NotFound)
  }

  /** The request the worker sends to read a user's history. */
  const HistoryRequest: Request := Request("GET", "/history", None)

  /** The request the worker sends to store a finished review. */
  function StoreRequest(rec: Record): Request {
    Request("POST", "/store", Some(rec))
  }

  /** `/history` answers with the visible history and changes neither what is visible
      nor storage. */
  lemma HistoryReadOnly(o: Object, req: Request)
    requires req.path == "/history"
    ensures Fetch(o, req).1 == HistoryJson(View(o))
    ensures Fetch(o, req).0.stored == o.stored
    ensures View(Fetch(o, req).0) == View(o)
  {
  }

  /** Reading twice with nothing in between gives the same answer both times. */
  lemma HistoryReadIdempotent(o: Object)
    ensures Fetch(Fetch(o, HistoryRequest).0, HistoryRequest) == Fetch(o, HistoryRequest)
  {
  }

  /** A POST to `/store` appends with the cap, and storage then holds exactly the
      in-memory history. */
  lemma StoreAppends(o: Object, rec: Record)
    ensures Fetch(o, StoreRequest(rec)).1 == StoreOk
    ensures Fetch(o, StoreRequest(rec)).0.history == AppendCapped(View(o), rec)
    ensures Fetch(o, StoreRequest(rec)).0.stored == Some(Fetch(o, StoreRequest(rec)).0.history)
  {
  }

  /** Any other path, and `/store` with another method, is a 404 that changes
      neither the visible history nor storage. */
  lemma OtherRequestsNotFound(o: Object, req: Request)
    requires req.path != "/history"
    requires !(req.path == "/store" && req.verb == "POST")
    ensures Fetch(o, req).1 == NotFound
    ensures Fetch(o, req).0.stored == o.stored
    ensures View(Fetch(o, req).0) == View(o)
  {
  }

  /** Every request keeps the two copies reconciled and within the cap; afterwards the
      in-memory history is exactly what storage holds. */
  lemma FetchKeepsInvariant(o: Object, req: Request)
    requires Reconciled(o) && Bounded(o)
    ensures Reconciled(Fetch(o, req).0) && Bounded(Fetch(o, req).0)
    ensures Fetch(o, req).0.history == Fetch(o, req).0.stored.GetOr([])
  {
  }

  /** Every request keeps both copies within the cap, whether or not they agree. */
  lemma FetchKeepsBound(o: Object, req: Request)
    requires Bounded(o)
    ensures Bounded(Fetch(o, req).0)
  {
  }

  /** Dropping the in-memory copy and constructing the object anew loses nothing:
      the lazy load brings the same history back. */
  lemma ReconstructKeepsView(o: Object)
    requires Reconciled(o)
    ensures View(Construct(o.stored)) == View(o)
  {
  }

  /** The object after one `/store` of the record. */
  function Store(o: Object, rec: Record): Object {
    Fetch(o, StoreRequest(rec)).0
  }

  /** Sends one `/store` per record, in order. */
  function StoreAll(o: Object, recs: seq<Record>): Object
    decreases |recs|
  {
    if |recs| == 0 then o
    else StoreAll(Store(o, recs[0]), recs[1..])
  }

  /** The history that appending each record in turn, with the cap, produces. */
  function AppendAll(history: seq<Record>, recs: seq<Record>): seq<Record>
    decreases |recs|
  {
    if |recs| == 0 then history
    else AppendAll(AppendCapped(history, recs[0]), recs[1..])
  }

  /** Storing records one by one through the object shows the history that appending
      them in turn produces. */
  lemma {:induction false} StoreAllAppends(o: Object, recs: seq<Record>)
    ensures View(StoreAll(o, recs)) == AppendAll(View(o), recs)
    decreases |recs|
  {
    if |recs| > 0 {
      StoreAppends(o, recs[0]);
      StoreAllAppends(Store(o, recs[0]), recs[1..]);
    }
  }

  /** Appending records in turn under the cap keeps the last fifty of the old history
      followed by the new records. */
  lemma {:induction false} AppendAllKeepsLast(history: seq<Record>, recs: seq<Record>)
    requires |history| <= MaxHistory
    ensures AppendAll(history, recs) == Seqs.Last(history + recs, MaxHistory)
    decreases |recs|
  {
    if |recs| == 0 {
      assert history + recs == history;
    } else {
      var r0, rest := recs[0], recs[1..];
      var h1 := AppendCapped(history, r0);
      calc {
        AppendAll(history, recs);
        AppendAll(h1, rest);
        { AppendAllKeepsLast(h1, rest); }
        Seqs.Last(h1 + rest, MaxHistory);
        { Seqs.LastOfLast(history + [r0], rest, MaxHistory); }
        Seqs.Last(history + [r0] + rest, MaxHistory);
        { assert history + [r0] + rest == history + recs; }
        Seqs.Last(history + recs, MaxHistory);
      }
    }
  }

  /** After storing records one after another, the history is the last fifty of
      everything: the previous history followed by the new records. */
  lemma StoreAllKeepsLast(o: Object, recs: seq<Record>)
    requires Bounded(o)
    ensures View(StoreAll(o, recs)) == Seqs.Last(View(o) + recs, MaxHistory)
  {
    StoreAllAppends(o, recs);
    AppendAllKeepsLast(View(o), recs);
  }

  /** From a fresh object with empty storage, n stores leave exactly the last min(n, 50)
      records, in the order they were stored. */
  lemma StoresFromEmpty(recs: seq<Record>)
    ensures View(StoreAll(Construct(None), recs)) == Seqs.Last(recs, MaxHistory)
    ensures |View(StoreAll(Construct(None), recs))| == Seqs.Min(|recs|, MaxHistory)
  {
    StoreAllKeepsLast(Construct(None), recs);
    assert View(Construct(None)) + recs == recs;
  }
}
