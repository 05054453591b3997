/** The worker's two API endpoints. `POST /api/review` validates the code, reads the
    user's history from their memory object, builds the prompt, asks the reviewer model,
    stores the finished review and answers with it and the earlier history's length.
    `GET /api/history` answers with the user's history. Memory objects are addressed by
    user id; the reviewer model is an opaque function from prompt to outcome. */
module Api {
  import opened JsValues
  import opened Records
  import Memory
  import Prompt

  /** All users' memory objects: the in-memory history of each live object (an identity
      without one has a freshly constructed object) and each identity's stored history. */
  datatype World = World(live: map<string, seq<Record>>, disk: map<string, seq<Record>>)

  /** The body of `POST /api/review`; each field is a string or missing (JSON `null` reads as missing). */
  datatype ReviewRequest = ReviewRequest(code: Option<string>, language: Option<string>, userId: Option<string>)

  /** What the reviewer model does with a prompt: answer with text, or fail. */
  datatype AiOutcome = Completed(text: string) | Failed

  /** The endpoints' answers: 200 with the review and the earlier history's length,
      400 "Code is required", 500, or 200 with a history list. */
  datatype Response = Reviewed(review: string, historyCount: nat) | BadRequest | ServerError | HistoryList(records: seq<Record>)

  /** The identity a request's user id selects: the id, or "default" when it is missing or empty. */
  function Identity(userId: Option<string>): (r: string)
    ensures r != ""
    ensures Truthy(userId) ==> r == userId.value
  {
    OrElse(userId, "default")
  }

  /** The memory object an identity addresses. */
  function ObjectOf(w: World, id: string): Memory.Object {
    Memory.Object(if id in w.live then w.live[id] else [], if id in w.disk then Some(w.disk[id]) else None)
  }

  /** The history a user would be shown. */
  function HistoryOf(w: World, id: string): seq<Record> {
    Memory.View(ObjectOf(w, id))
  }

  /** The world with `o` as the identity's memory object; nothing is unstored. */
  function Install(w: World, id: string, o: Memory.Object): (r: World)
    requires o.stored.Some? || id !in w.disk
    ensures ObjectOf(r, id) == o
    ensures r.disk - {id} == w.disk - {id}
    ensures r.live - {id} == w.live - {id}
  {
    World(w.live[id := o.history], if o.stored.Some? then w.disk[id := o.stored.value] else w.disk)
  }

  /** Sends one request to an identity's memory object and keeps its new state;
      no other identity's object is touched. */
  function Call(w: World, id: string, req: Memory.Request): (r: (World, Memory.Reply))
    ensures ObjectOf(r.0, id) == Memory.Fetch(ObjectOf(w, id), req).0
    ensures r.1 == Memory.Fetch(ObjectOf(w, id), req).1
    ensures r.0.disk - {id} == w.disk - {id}
    ensures r.0.live - {id} == w.live - {id}
  {
    var (o, reply) := Memory.Fetch(ObjectOf(w, id), req);
    (Install(w, id, o), reply)
  }

  /** `POST /api/review`, for a given reviewer model and clock reading. */
  function Review(w: World, req: ReviewRequest, ai: string -> AiOutcome, now: int): (r: (World, Response))
    ensures r.1 == BadRequest <==> !Truthy(req.code)
    ensures !r.1.Reviewed? ==> r.0.disk == w.disk
  {
    if !Truthy(req.code) then (w, BadRequest)
    else ReviewFor(w, Identity(req.userId), req.code.value, req.language, ai, now)
  }

  /** A validated review for the identity `id`: read the history, prompt the model with it,
      and store the review only once the model has answered. */
  function ReviewFor(w: World, id: string, code: string, language: Option<string>, ai: string -> AiOutcome, now: int): (r: (World, Response))
    ensures r.1 != BadRequest
    ensures !r.1.Reviewed? ==> r.0.disk == w.disk
    ensures r.1.Reviewed? ==> r.1.historyCount == |HistoryOf(w, id)|
  {
    var (w1, reply) := Call(w, id, Memory.HistoryRequest);
    match reply
    case HistoryJson(history) =>
      (match ai(Prompt.BuildPrompt(code, language, history))
       case Failed => (w1, ServerError)
       case Completed(text) =>
         var (w2, stored) := Call(w1, id, Memory.StoreRequest(Record(code, language, text, now)));
         // a throw from the object's `/store` would become a 500; the worker's own store
         // request always carries a body, so it is never rejected
         if stored == Memory.Rejected then (w2, ServerError) else (w2, Reviewed(text, |history|)))
    case _ =>
      // any other reply is not JSON; parsing it throws, which the handler turns into a 500
      (w1, ServerError)
  }

  /** `GET /api/history?userId=`. */
  function History(w: World, userId: Option<string>): (r: (World, Response))
    ensures r.0.disk == w.disk
    ensures r.1 == HistoryList(HistoryOf(w, Identity(userId)))
  {
    HistoryFor(w, Identity(userId))
  }

  /** The history endpoint for the identity `id`. */
  function HistoryFor(w: World, id: string): (r: (World, Response))
    ensures r.0.disk == w.disk
    ensures r.1 == HistoryList(HistoryOf(w, id))
  {
    var (w1, reply) := Call(w, id, Memory.HistoryRequest);
    match reply
    case HistoryJson(history) => (w1, HistoryList(history))
    case _ => (w1, ServerError)
  }

  /** The runtime discarding an identity's object instance; its storage survives and the
      next request constructs the object anew. */
  function Evict(w: World, id: string): World {
    World(w.live - {id}, w.disk)
  }

  /** Every live object agrees with its storage and every history is within the cap. */
  predicate Valid(w: World) {
    && (forall id :: id in w.live ==> Memory.Reconciled(ObjectOf(w, id)))
    && (forall id :: id in w.live ==> |w.live[id]| <= Memory.MaxHistory)
    && (forall id :: id in w.disk ==> |w.disk[id]| <= Memory.MaxHistory)
  }

  /** Missing or empty code is rejected with 400 before anything else happens; any other
      code, blanks included, is not. */
  lemma RejectsOnlyFalsyCode(w: World, req: ReviewRequest, ai: string -> AiOutcome, now: int)
    ensures Review(w, req, ai, now).1 == BadRequest <==> !Truthy(req.code)
    ensures !Truthy(req.code) ==> Review(w, req, ai, now).0 == w
  {
  }

  /** When the reviewer model fails, the answer is 500, storage is untouched and every
      user's visible history is as before. */
  lemma FailedReviewStoresNothing(w: World, req: ReviewRequest, ai: string -> AiOutcome, now: int)
    requires Truthy(req.code)
    requires ai(Prompt.BuildPrompt(req.code.value, req.language, HistoryOf(w, Identity(req.userId)))) == Failed
    ensures Review(w, req, ai, now).1 == ServerError
    ensures Review(w, req, ai, now).0.disk == w.disk
    ensures forall id :: HistoryOf(Review(w, req, ai, now).0, id) == HistoryOf(w, id)
  {
    ReadCall(w, Identity(req.userId));
  }

  /** Reading an identity's history answers with what it shows and leaves every
      visible history and all storage as they were. */
  lemma ReadCall(w: World, id: string)
    ensures Call(w, id, Memory.HistoryRequest).1 == Memory.HistoryJson(HistoryOf(w, id))
    ensures Call(w, id, Memory.HistoryRequest).0.disk == w.disk
    ensures forall k :: HistoryOf(Call(w, id, Memory.HistoryRequest).0, k) == HistoryOf(w, k)
  {
    Memory.HistoryReadOnly(ObjectOf(w, id), Memory.HistoryRequest);
  }

  /** Storing a record for one identity appends it to that identity's history under the
      cap, persists the result, and changes nobody else. */
  lemma StoreCall(w: World, id: string, rec: Record)
    ensures HistoryOf(Call(w, id, Memory.StoreRequest(rec)).0, id) == Memory.AppendCapped(HistoryOf(w, id), rec)
    ensures Call(w, id, Memory.StoreRequest(rec)).0.disk == w.disk[id := Memory.AppendCapped(HistoryOf(w, id), rec)]
    ensures forall k :: k != id ==> HistoryOf(Call(w, id, Memory.StoreRequest(rec)).0, k) == HistoryOf(w, k)
  {
    Memory.StoreAppends(ObjectOf(w, id), rec);
  }

  /** A successful review is prompted with the user's earlier history, answers with the
      model's text and that history's length, appends {code, language, review, timestamp}
      under the cap, persists exactly the new history, and touches no other user. */
  lemma SuccessfulReviewStores(w: World, req: ReviewRequest, ai: string -> AiOutcome, now: int, text: string)
    requires Truthy(req.code)
    requires ai(Prompt.BuildPrompt(req.code.value, req.language, HistoryOf(w, Identity(req.userId)))) == Completed(text)
    ensures Review(w, req, ai, now).1 == Reviewed(text, |HistoryOf(w, Identity(req.userId))|)
    ensures HistoryOf(Review(w, req, ai, now).0, Identity(req.userId))
      == Memory.AppendCapped(HistoryOf(w, Identity(req.userId)), Record(req.code.value, req.language, text, now))
    ensures Review(w, req, ai, now).0.disk
      == w.disk[Identity(req.userId) := HistoryOf(Review(w, req, ai, now).0, Identity(req.userId))]
    ensures forall other :: other != Identity(req.userId) ==> HistoryOf(Review(w, req, ai, now).0, other) == HistoryOf(w, other)
  {
    var id := Identity(req.userId);
    var rec := Record(req.code.value, req.language, text, now);
    var w1 := Call(w, id, Memory.HistoryRequest).0;
    ReadCall(w, id);
    var w2 := Call(w1, id, Memory.StoreRequest(rec)).0;
    assert Review(w, req, ai, now) == (w2, Reviewed(text, |HistoryOf(w, id)|));
    StoreCall(w1, id, rec);
  }

  /** `GET /api/history` answers with the user's history and changes no visible history
      and no storage. */
  lemma HistoryEndpointReadOnly(w: World, userId: Option<string>)
    ensures History(w, userId).1 == HistoryList(HistoryOf(w, Identity(userId)))
    ensures History(w, userId).0.disk == w.disk
    ensures forall id :: HistoryOf(History(w, userId).0, id) == HistoryOf(w, id)
  {
    Memory.HistoryReadOnly(ObjectOf(w, Identity(userId)), Memory.HistoryRequest);
  }

  /** A missing or empty user id addresses the same history as the id "default",
      on both endpoints. */
  lemma MissingUserIsDefault(w: World, code: Option<string>, language: Option<string>, ai: string -> AiOutcome, now: int)
    ensures Review(w, ReviewRequest(code, language, None), ai, now)
      == Review(w, ReviewRequest(code, language, Some("default")), ai, now)
    ensures Review(w, ReviewRequest(code, language, Some("")), ai, now)
      == Review(w, ReviewRequest(code, language, Some("default")), ai, now)
    ensures History(w, None) == History(w, Some("default"))
    ensures History(w, Some("")) == History(w, Some("default"))
  {
    assert Identity(None) == "default";
    assert Identity(Some("")) == "default";
    assert Identity(Some("default")) == "default";
  }

  /** Both endpoints keep every object reconciled with its storage and within the cap. */
  lemma EndpointsKeepValid(w: World, req: ReviewRequest, ai: string -> AiOutcome, now: int, userId: Option<string>)
    requires Valid(w)
    ensures Valid(Review(w, req, ai, now).0)
    ensures Valid(History(w, userId).0)
  {
    if Truthy(req.code) {
      var id := Identity(req.userId);
      var w1 := Call(w, id, Memory.HistoryRequest).0;
      CallKeepsValid(w, id, Memory.HistoryRequest);
      var prompt := Prompt.BuildPrompt(req.code.value, req.language, HistoryOf(w, id));
      Memory.HistoryReadOnly(ObjectOf(w, id), Memory.HistoryRequest);
      if ai(prompt).Completed? {
        CallKeepsValid(w1, id, Memory.StoreRequest(Record(req.code.value, req.language, ai(prompt).text, now)));
      }
    }
    CallKeepsValid(w, Identity(userId), Memory.HistoryRequest);
  }

  /** Any request to one memory object keeps the whole world valid. */
  lemma CallKeepsValid(w: World, id: string, req: Memory.Request)
    requires Valid(w)
    ensures Valid(Call(w, id, req).0)
  {
    var o := ObjectOf(w, id);
    Memory.FetchKeepsInvariant(o, req);
    var w1 := Call(w, id, req).0;
    forall k | k in w1.live
      ensures Memory.Reconciled(ObjectOf(w1, k)) && |w1.live[k]| <= Memory.MaxHistory
    {
      if k != id {
        OthersUnchanged(w, w1, id, k);
      }
    }
    forall k | k in w1.disk
      ensures |w1.disk[k]| <= Memory.MaxHistory
    {
      if k != id {
        OthersUnchanged(w, w1, id, k);
      }
    }
  }

  /** Two worlds that differ at most at `id` address the same object everywhere else. */
  lemma OthersUnchanged(w: World, w1: World, id: string, k: string)
    requires w1.disk - {id} == w.disk - {id} && w1.live - {id} == w.live - {id}
    requires k != id
    ensures ObjectOf(w1, k) == ObjectOf(w, k)
    ensures k in w1.live <==> k in w.live
    ensures k in w1.disk <==> k in w.disk
  {
    assert k in w1.disk <==> k in w1.disk - {id};
    assert k in w.disk <==> k in w.disk - {id};
    assert k in w1.live <==> k in w1.live - {id};
    assert k in w.live <==> k in w.live - {id};
    if k in w.disk {
      assert w1.disk[k] == (w1.disk - {id})[k];
      assert w.disk[k] == (w.disk - {id})[k];
    }
    if k in w.live {
      assert w1.live[k] == (w1.live - {id})[k];
      assert w.live[k] == (w.live - {id})[k];
    }
  }

  /** Discarding an object instance loses nothing: the history it shows afterwards is
      the one it showed before. */
  lemma EvictKeepsHistory(w: World, evicted: string)
    requires Valid(w)
    ensures Valid(Evict(w, evicted))
    ensures forall id :: HistoryOf(Evict(w, evicted), id) == HistoryOf(w, id)
  {
    forall id
      ensures HistoryOf(Evict(w, evicted), id) == HistoryOf(w, id)
    {
      if id == evicted && id in w.live {
        Memory.ReconstructKeepsView(ObjectOf(w, id));
      }
    }
  }

  /** The first review of a new user: with no earlier reviews the prompt is the header
      and the instructions alone, the answer counts no earlier reviews, and afterwards the
      user has exactly one record. */
  lemma FirstReviewExample(ai: string -> AiOutcome, now: int, text: string)
    requires ai(Prompt.Header("print(1)", Some("python")) + Prompt.Instructions) == Completed(text)
    ensures Review(World(map[], map[]), ReviewRequest(Some("print(1)"), Some("python"), None), ai, now).1
      == Reviewed(text, 0)
    ensures HistoryOf(Review(World(map[], map[]), ReviewRequest(Some("print(1)"), Some("python"), None), ai, now).0, "default")
      == [Record("print(1)", Some("python"), text, now)]
  {
    var w := World(map[], map[]);
    var req := ReviewRequest(Some("print(1)"), Some("python"), None);
    assert Identity(None) == "default";
    assert HistoryOf(w, "default") == [];
    Prompt.NoHistoryNoHint("print(1)", Some("python"));
    SuccessfulReviewStores(w, req, ai, now, text);
    assert Memory.AppendCapped([], Record("print(1)", Some("python"), text, now)) == [Record("print(1)", Some("python"), text, now)];
  }
}
