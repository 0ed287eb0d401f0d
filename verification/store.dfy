/** The persisted records behind the `/api/roteiros` route: itineraries
    ("roteiros") that exclusively own an ordered list of activities
    ("atividades"), kept in a map from id to record. */
module Store {
  import opened Base

  /** A stored activity; `data` is null unless a non-empty date was sent. */
  datatype Activity = Activity(id: Id, nome: string, data: Option<Date>)

  /** A stored itinerary; `orcamento` is null unless a truthy budget was sent. */
  datatype Roteiro = Roteiro(
    id: Id,
    userId: UserId,
    destino: string,
    dataInicio: Date,
    dataFim: Date,
    orcamento: Option<real>,
    notas: Option<string>,
    createdAt: int,
    atividades: seq<Activity>)

  /** The store: the itinerary table (activities nested in their parent) and
      the id generator, which hands out `next`, `next + 1`, ... */
  datatype Db = Db(roteiros: map<Id, Roteiro>, next: Id)

  /** One activity as it arrives in a request body: `{ nome, data? }`. */
  datatype ActivityInput = ActivityInput(nome: string, data: Option<string>)

  /** `data ? new Date(data) : null`: an absent or empty date becomes null. */
  function StoredDate(data: Option<string>): (d: Option<Date>)
    ensures d.None? <==> data.None? || data.value == ""
    ensures d.Some? ==> d == data
  {
    match data
    case Some(text) => if text != "" then Some(text) else None
    case None => None
  }

  /** `orcamento ? parseFloat(orcamento) : null`: a falsy budget (absent or 0) becomes null. */
  function StoredBudget(orcamento: Option<real>): (b: Option<real>)
    ensures b.None? <==> orcamento.None? || orcamento.value == 0.0
    ensures b.Some? ==> b == orcamento
  {
    match orcamento
    case Some(amount) => if amount != 0.0 then Some(amount) else None
    case None => None
  }

  /** `acts` is the one-to-one, in-order image of `inputs`: same name, normalised date. */
  ghost predicate Corresponds(acts: seq<Activity>, inputs: seq<ActivityInput>) {
    && |acts| == |inputs|
    && forall i :: 0 <= i < |acts| ==>
         acts[i].nome == inputs[i].nome && acts[i].data == StoredDate(inputs[i].data)
  }

  /** The ids of a list of activities. */
  function ActivityIds(acts: seq<Activity>): set<Id> {
    set i | 0 <= i < |acts| :: acts[i].id
  }

  /** `atividades: { create: inputs.map(...) }`: one new activity per input,
      in order, with the consecutive fresh ids `first`, `first + 1`, ... */
  function CreateActivities(inputs: seq<ActivityInput>, first: Id): (acts: seq<Activity>)
    ensures Corresponds(acts, inputs)
    ensures forall i :: 0 <= i < |acts| ==> acts[i].id == first + i
  {
    if inputs == [] then []
    else [Activity(first, inputs[0].nome, StoredDate(inputs[0].data))] + CreateActivities(inputs[1..], first + 1)
  }

  /** The stored form of a record: a falsy budget and an empty date are never kept. */
  ghost predicate Normalised(r: Roteiro) {
    && r.orcamento != Some(0.0)
    && forall i :: 0 <= i < |r.atividades| ==> r.atividades[i].data != Some("")
  }

  /** No activity id is used twice, within one itinerary or across two. */
  ghost predicate UniqueActivityIds(m: map<Id, Roteiro>) {
    forall k1, k2, i, j ::
      && k1 in m && k2 in m
      && 0 <= i < |m[k1].atividades| && 0 <= j < |m[k2].atividades|
      && m[k1].atividades[i].id == m[k2].atividades[j].id
      ==> k1 == k2 && i == j
  }

  /** The table invariant: every record sits under its own id, every id in
      use is below the generator's next id, and records are normalised. */
  ghost predicate Valid(db: Db) {
    && (forall k :: k in db.roteiros ==>
          && db.roteiros[k].id == k
          && k < db.next
          && Normalised(db.roteiros[k])
          && forall i :: 0 <= i < |db.roteiros[k].atividades| ==> db.roteiros[k].atividades[i].id < db.next)
    && UniqueActivityIds(db.roteiros)
  }

  /** The empty table, as the program starts, satisfies the invariant. */
  lemma EmptyStoreValid()
    ensures Valid(Db(map[], 0))
  {
  }

  /** The ids of every activity in the store. */
  ghost function AllActivityIds(db: Db): set<Id> {
    set k, i | k in db.roteiros && 0 <= i < |db.roteiros[k].atividades| :: db.roteiros[k].atividades[i].id
  }

  /** The itinerary `id` exists and belongs to `uid`. */
  predicate OwnedBy(db: Db, id: Id, uid: UserId) {
    id in db.roteiros && db.roteiros[id].userId == uid
  }
}
