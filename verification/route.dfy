/** The `/api/roteiros` route handlers as pure transitions: each takes the
    store, the caller's session and the request, and yields the response
    together with the new store. */
module Route {
  import opened Base
  import opened Store

  datatype User = User(id: UserId)

  /** What the session provider resolves; `user` may be missing. */
  datatype Session = Session(user: Option<User>)

  /** Whether the storage engine answers (`Up`) or every call to it throws (`Down`). */
  datatype Backend = Up | Down

  /** The JSON body of a POST or PUT. `id` is read by PUT only; `userId` is
      whatever the client claims and is never read. */
  datatype Body = Body(
    id: Option<Id>,
    destino: string,
    dataInicio: Date,
    dataFim: Date,
    orcamento: Option<real>,
    notas: Option<string>,
    atividades: Option<seq<ActivityInput>>,
    userId: Option<UserId>)

  datatype Response =
    | Unauthorized                   // 401 'Não autorizado'
    | NotFound                       // 404, missing and not-owned alike
    | Listed(items: seq<Roteiro>)    // 200 with the caller's itineraries
    | Created(roteiro: Roteiro)      // 201 with the new itinerary
    | Updated(roteiro: Roteiro)      // 200 with the rewritten itinerary
    | Deleted                        // 200 with a confirmation message
    | ServerError                    // 500 'Erro ao buscar roteiros'
    | NoResponse                     // the catch block logs and returns nothing

  /** The HTTP status of a response; `None` when the handler returned nothing. */
  function Status(r: Response): Option<nat> {
    match r
    case Unauthorized => Some(401)
    case NotFound => Some(404)
    case Listed(_) => Some(200)
    case Created(_) => Some(201)
    case Updated(_) => Some(200)
    case Deleted => Some(200)
    case ServerError => Some(500)
    case NoResponse => None
  }

  datatype Step = Step(response: Response, db: Db)

  /** The authentication gate: `!session || !session.user` rejects. */
  function Caller(session: Option<Session>): (uid: Option<UserId>)
    ensures uid.Some? <==> session.Some? && session.value.user.Some?
    ensures uid.Some? ==> uid.value == session.value.user.value.id
  {
    if session.Some? && session.value.user.Some? then Some(session.value.user.value.id) else None
  }

  /* ---------------- GET ---------------- */

  /** Newest first: `orderBy: { createdAt: 'desc' }`. */
  ghost predicate NewestFirst(items: seq<Roteiro>) {
    forall i, j :: 0 <= i < j < |items| ==> items[i].createdAt >= items[j].createdAt
  }

  ghost predicate InsertedAt(r: seq<Roteiro>, items: seq<Roteiro>, x: Roteiro, p: int) {
    0 <= p <= |items| && r == items[..p] + [x] + items[p..]
  }

  lemma InsertedAtCons(items: seq<Roteiro>, x: Roteiro, rest: seq<Roteiro>)
    requires items != [] && exists p :: InsertedAt(rest, items[1..], x, p)
    ensures exists p :: InsertedAt([items[0]] + rest, items, x, p)
  {
    var p :| InsertedAt(rest, items[1..], x, p);
    assert InsertedAt([items[0]] + rest, items, x, p + 1);
  }

  /** Places `x` among `items` so that the list stays newest first. */
  function InsertNewest(items: seq<Roteiro>, x: Roteiro): (r: seq<Roteiro>)
    requires NewestFirst(items)
    ensures NewestFirst(r)
    ensures exists p :: InsertedAt(r, items, x, p)
  {
    if items == [] || items[0].createdAt < x.createdAt then
      assert InsertedAt([x] + items, items, x, 0);
      [x] + items
    else
      var rest := InsertNewest(items[1..], x);
      InsertedAtCons(items, x, rest);
      [items[0]] + rest
  }

  /** The ids of a list of itineraries. */
  function Ids(items: seq<Roteiro>): set<Id> {
    set i | 0 <= i < |items| :: items[i].id
  }

  /** `items` is exactly the set of `uid`'s itineraries in `db`, each once,
      each with its activities, newest first. */
  ghost predicate IsListing(db: Db, uid: UserId, items: seq<Roteiro>) {
    && (forall i :: 0 <= i < |items| ==>
          items[i].id in db.roteiros && db.roteiros[items[i].id] == items[i] && items[i].userId == uid)
    && (forall k :: OwnedBy(db, k, uid) ==> k in Ids(items))
    && (forall i, j :: 0 <= i < j < |items| ==> items[i].id != items[j].id)
    && NewestFirst(items)
  }

  /** Every listed item is `uid`'s record from `db`, under a key already visited. */
  ghost predicate ListedFrom(db: Db, uid: UserId, remaining: set<Id>, items: seq<Roteiro>) {
    forall i :: 0 <= i < |items| ==>
      && items[i].id in db.roteiros && db.roteiros[items[i].id] == items[i]
      && items[i].userId == uid && items[i].id !in remaining
  }

  /** Every visited key owned by `uid` is listed. */
  ghost predicate Covers(db: Db, uid: UserId, remaining: set<Id>, items: seq<Roteiro>) {
    forall k :: OwnedBy(db, k, uid) && k !in remaining ==> k in Ids(items)
  }

  /** No id is listed twice. */
  ghost predicate DistinctIds(items: seq<Roteiro>) {
    forall i, j :: 0 <= i < j < |items| ==> items[i].id != items[j].id
  }

  /** `items` lists, newest first and each once, exactly `uid`'s itineraries
      among the keys already visited (those not in `remaining`). */
  ghost predicate PartialListing(db: Db, uid: UserId, remaining: set<Id>, items: seq<Roteiro>) {
    ListedFrom(db, uid, remaining, items) && Covers(db, uid, remaining, items)
    && DistinctIds(items) && NewestFirst(items)
  }

  /** Where each element of a list with one insertion comes from. */
  ghost predicate Spliced(r: seq<Roteiro>, items: seq<Roteiro>, x: Roteiro, p: int) {
    && 0 <= p <= |items| && |r| == |items| + 1
    && (forall i :: 0 <= i < p ==> r[i] == items[i])
    && r[p] == x
    && (forall i :: p < i < |r| ==> r[i] == items[i - 1])
  }

  lemma InsertedAtSpliced(r: seq<Roteiro>, items: seq<Roteiro>, x: Roteiro, p: int)
    requires InsertedAt(r, items, x, p)
    ensures Spliced(r, items, x, p)
  {
  }

  lemma SplicedListedFrom(db: Db, uid: UserId, remaining: set<Id>, r: seq<Roteiro>, items: seq<Roteiro>, k: Id, p: int)
    requires k in db.roteiros && db.roteiros[k].id == k && db.roteiros[k].userId == uid
    requires ListedFrom(db, uid, remaining, items) && Spliced(r, items, db.roteiros[k], p)
    ensures ListedFrom(db, uid, remaining - {k}, r)
  {
    forall i | 0 <= i < |r|
      ensures r[i].id in db.roteiros && db.roteiros[r[i].id] == r[i] && r[i].userId == uid && r[i].id !in remaining - {k}
    {
      if i < p {
        assert r[i] == items[i];
      } else if p < i {
        assert r[i] == items[i - 1];
      }
    }
  }

  lemma SplicedCovers(db: Db, uid: UserId, remaining: set<Id>, r: seq<Roteiro>, items: seq<Roteiro>, k: Id, p: int)
    requires k in db.roteiros && db.roteiros[k].id == k
    requires Covers(db, uid, remaining, items) && Spliced(r, items, db.roteiros[k], p)
    ensures Covers(db, uid, remaining - {k}, r)
  {
    forall k' | OwnedBy(db, k', uid) && k' !in remaining - {k} ensures k' in Ids(r) {
      if k' == k {
        assert r[p].id == k';
      } else {
        var i :| 0 <= i < |items| && items[i].id == k';
        assert r[if i < p then i else i + 1].id == k';
      }
    }
  }

  lemma SplicedDistinct(r: seq<Roteiro>, items: seq<Roteiro>, x: Roteiro, p: int)
    requires DistinctIds(items) && Spliced(r, items, x, p) && x.id !in Ids(items)
    ensures DistinctIds(r)
  {
    forall i, j | 0 <= i < j < |r| ensures r[i].id != r[j].id {
      var ii := if i < p then i else i - 1;
      var jj := if j < p then j else j - 1;
      if i == p {
        assert r[j] == items[jj];
      } else if j == p {
        assert r[i] == items[ii];
      } else {
        assert r[i] == items[ii] && r[j] == items[jj] && ii < jj;
      }
    }
  }

  /** Visiting one more owned key and inserting its record keeps the partial listing. */
  lemma InsertKeepsPartialListing(db: Db, uid: UserId, remaining: set<Id>, items: seq<Roteiro>, k: Id)
    requires Valid(db) && remaining <= db.roteiros.Keys && k in remaining && db.roteiros[k].userId == uid
    requires PartialListing(db, uid, remaining, items)
    ensures PartialListing(db, uid, remaining - {k}, InsertNewest(items, db.roteiros[k]))
  {
    var x := db.roteiros[k];
    var r := InsertNewest(items, x);
    var p :| InsertedAt(r, items, x, p);
    InsertedAtSpliced(r, items, x, p);
    SplicedListedFrom(db, uid, remaining, r, items, k, p);
    SplicedCovers(db, uid, remaining, r, items, k, p);
    assert x.id !in Ids(items);
    SplicedDistinct(r, items, x, p);
  }

  /** GET: the caller's itineraries with their activities, newest first. */
  method Get(db: Db, session: Option<Session>, backend: Backend) returns (response: Response)
    requires Valid(db)
    ensures Caller(session).None? ==> response == Unauthorized
    ensures Caller(session).Some? && backend == Down ==> response == ServerError
    ensures Caller(session).Some? && backend == Up ==>
              response.Listed? && IsListing(db, Caller(session).value, response.items)
  {
    var caller := Caller(session);
    if caller.None? {
      return Unauthorized;
    }
    if backend == Down {
      return ServerError;
    }
    var uid := caller.value;
    var remaining := db.roteiros.Keys;
    var items: seq<Roteiro> := [];
    while remaining != {}
      invariant remaining <= db.roteiros.Keys
      invariant PartialListing(db, uid, remaining, items)
      decreases remaining
    {
      var k :| k in remaining;
      if db.roteiros[k].userId == uid {
        InsertKeepsPartialListing(db, uid, remaining, items, k);
        items := InsertNewest(items, db.roteiros[k]);
      }
      remaining := remaining - {k};
    }
    return Listed(items);
  }

  /* ---------------- writes ---------------- */

  /** Activities created under fresh ids `first`, `first + 1`, ... are pairwise distinct. */
  lemma CreatedActivityIdsDistinct(inputs: seq<ActivityInput>, first: Id)
    ensures forall i, j :: 0 <= i < j < |CreateActivities(inputs, first)| ==>
              CreateActivities(inputs, first)[i].id != CreateActivities(inputs, first)[j].id
  {
  }

  /** Writing a normalised record under its own id, whose activities all carry
      ids the generator has just handed out, keeps the table invariant. */
  lemma WriteKeepsValid(db: Db, r: Roteiro, next: Id)
    requires Valid(db)
    requires db.next <= next && r.id < next
    requires r.id in db.roteiros || db.next <= r.id
    requires Normalised(r)
    requires forall i :: 0 <= i < |r.atividades| ==> db.next <= r.atividades[i].id < next
    requires forall i, j :: 0 <= i < j < |r.atividades| ==> r.atividades[i].id != r.atividades[j].id
    ensures Valid(Db(db.roteiros[r.id := r], next))
  {
    var m := db.roteiros[r.id := r];
    forall k1, k2, i, j |
      && k1 in m && k2 in m
      && 0 <= i < |m[k1].atividades| && 0 <= j < |m[k2].atividades|
      ensures m[k1].atividades[i].id == m[k2].atividades[j].id ==> k1 == k2 && i == j
    {
      if k1 == r.id && k2 != r.id {
        assert m[k2] == db.roteiros[k2];
        assert m[k2].atividades[j].id < db.next;
      } else if k2 == r.id && k1 != r.id {
        assert m[k1] == db.roteiros[k1];
        assert m[k1].atividades[i].id < db.next;
      } else if k1 != r.id && k2 != r.id {
        assert m[k1] == db.roteiros[k1] && m[k2] == db.roteiros[k2];
      }
    }
  }

  /** POST: creates one itinerary owned by the caller, under a fresh id. */
  function Post(db: Db, session: Option<Session>, body: Body, now: int, backend: Backend): (step: Step)
    requires Valid(db)
    ensures Valid(step.db)
    ensures Caller(session).None? ==> step == Step(Unauthorized, db)
    ensures Caller(session).Some? && (body.atividades.None? || backend == Down) ==> step == Step(NoResponse, db)
    ensures Caller(session).Some? && body.atividades.Some? && backend == Up ==>
              && step.response.Created?
              && var r := step.response.roteiro;
              && r.id !in db.roteiros
              && step.db.roteiros == db.roteiros[r.id := r]
              && r.userId == Caller(session).value
              && r.destino == body.destino && r.dataInicio == body.dataInicio && r.dataFim == body.dataFim
              && r.orcamento == StoredBudget(body.orcamento)
              && r.notas == body.notas
              && r.createdAt == now
              && Corresponds(r.atividades, body.atividades.value)
              && (forall i :: 0 <= i < |r.atividades| ==> r.atividades[i].id !in AllActivityIds(db))
  {
    var caller := Caller(session);
    if caller.None? then
      Step(Unauthorized, db)
    else if body.atividades.None? || backend == Down then
      Step(NoResponse, db)
    else
      var inputs := body.atividades.value;
      var acts := CreateActivities(inputs, db.next + 1);
      var r := Roteiro(db.next, caller.value, body.destino, body.dataInicio, body.dataFim,
                       StoredBudget(body.orcamento), body.notas, now, acts);
      var next := db.next + 1 + |inputs|;
      CreatedActivityIdsDistinct(inputs, db.next + 1);
      WriteKeepsValid(db, r, next);
      Step(Created(r), Db(db.roteiros[r.id := r], next))
  }

  /** PUT: rewrites an itinerary the caller owns and replaces its whole activity list. */
  function Put(db: Db, session: Option<Session>, body: Body, backend: Backend): (step: Step)
    requires Valid(db)
    ensures Valid(step.db)
    ensures Caller(session).None? ==> step == Step(Unauthorized, db)
    ensures Caller(session).Some? && (backend == Down || body.id.None?) ==> step == Step(NoResponse, db)
    ensures Caller(session).Some? && backend == Up && body.id.Some? && !OwnedBy(db, body.id.value, Caller(session).value) ==>
              step == Step(NotFound, db)
    ensures Caller(session).Some? && backend == Up && body.id.Some? && OwnedBy(db, body.id.value, Caller(session).value) ==>
              if body.atividades.None? then
                step == Step(NoResponse, db)
              else
                && step.response.Updated?
                && var old_ := db.roteiros[body.id.value];
                && var r := step.response.roteiro;
                && r.id == old_.id && r.userId == old_.userId && r.createdAt == old_.createdAt
                && step.db.roteiros == db.roteiros[r.id := r]
                && r.destino == body.destino && r.dataInicio == body.dataInicio && r.dataFim == body.dataFim
                && r.orcamento == StoredBudget(body.orcamento)
                && r.notas == (if body.notas.Some? then body.notas else old_.notas)
                && Corresponds(r.atividades, body.atividades.value)
                && (forall i :: 0 <= i < |r.atividades| ==> r.atividades[i].id !in AllActivityIds(db))
  {
    var caller := Caller(session);
    if caller.None? then
      Step(Unauthorized, db)
    else if backend == Down || body.id.None? then
      Step(NoResponse, db)
    else if !OwnedBy(db, body.id.value, caller.value) then
      Step(NotFound, db)
    else if body.atividades.None? then
      Step(NoResponse, db)
    else
      var old_ := db.roteiros[body.id.value];
      var inputs := body.atividades.value;
      var acts := CreateActivities(inputs, db.next);
      var r := old_.(destino := body.destino, dataInicio := body.dataInicio, dataFim := body.dataFim,
                     orcamento := StoredBudget(body.orcamento),
                     notas := if body.notas.Some? then body.notas else old_.notas,
                     atividades := acts);
      var next := db.next + |inputs|;
      CreatedActivityIdsDistinct(inputs, db.next);
      WriteKeepsValid(db, r, next);
      Step(Updated(r), Db(db.roteiros[r.id := r], next))
  }

  /** DELETE: removes an itinerary the caller owns, and with it its activities. */
  function Delete(db: Db, session: Option<Session>, id: Option<Id>, backend: Backend): (step: Step)
    requires Valid(db)
    ensures Valid(step.db)
    ensures Caller(session).None? ==> step == Step(Unauthorized, db)
    ensures Caller(session).Some? && (backend == Down || id.None?) ==> step == Step(NoResponse, db)
    ensures Caller(session).Some? && backend == Up && id.Some? ==>
              if OwnedBy(db, id.value, Caller(session).value) then
                step == Step(Deleted, Db(db.roteiros - {id.value}, db.next))
              else
                step == Step(NotFound, db)
  {
    var caller := Caller(session);
    if caller.None? then
      Step(Unauthorized, db)
    else if backend == Down || id.None? then
      Step(NoResponse, db)
    else if !OwnedBy(db, id.value, caller.value) then
      Step(NotFound, db)
    else
      Step(Deleted, Db(db.roteiros - {id.value}, db.next))
  }
}
