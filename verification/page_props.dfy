/** Properties of the page helpers, alone and together with the route handlers. */
module PageProps {
  import opened Base
  import opened Text
  import Store
  import Route
  import Arrays
  import opened Page

  /** An empty search keeps every itinerary, in order. */
  lemma FiltradosEmptySearch(rs: seq<Store.Roteiro>)
    ensures Filtrados(rs, "") == rs
  {
    forall i | 0 <= i < |rs| ensures Matches(rs[i], "") {
      assert OccursAt(Lower(rs[i].destino), Lower(""), 0);
    }
    Arrays.FilterKeepsAll(rs, r => Matches(r, ""));
  }

  /** The filter keeps every matching itinerary as often as `rs` holds it, and nothing else. */
  lemma FiltradosCounts(rs: seq<Store.Roteiro>, busca: string)
    ensures forall x :: multiset(Filtrados(rs, busca))[x] == if Matches(x, busca) then multiset(rs)[x] else 0
  {
    Arrays.FilterCounts(rs, r => Matches(r, busca));
  }

  /** The filter keeps relative order: filtering a concatenation filters each part. */
  lemma FiltradosAppend(a: seq<Store.Roteiro>, b: seq<Store.Roteiro>, busca: string)
    ensures Filtrados(a + b, busca) == Filtrados(a, busca) + Filtrados(b, busca)
  {
    Arrays.FilterAppend(a, b, r => Matches(r, busca));
  }

  /** Filtering an already filtered list changes nothing. */
  lemma FiltradosIdempotent(rs: seq<Store.Roteiro>, busca: string)
    ensures Filtrados(Filtrados(rs, busca), busca) == Filtrados(rs, busca)
  {
    Arrays.FilterIdempotent(rs, r => Matches(r, busca));
  }

  /** Removing the last activity undoes adding one. */
  lemma AddThenRemoveLast(f: Form)
    requires !Blank(f.novaAtividade)
    ensures RemoverAtividade(AdicionarAtividade(f, "Enter").form, |f.atividades|).atividades == f.atividades
  {
    var added := AdicionarAtividade(f, "Enter").form;
    assert RemoverAtividade(added, |f.atividades|).atividades == added.atividades[..|f.atividades|];
  }

  /** A new itinerary saved from the form is created for the session's user,
      with the form's activities, one for one and in order. */
  lemma SavedFormIsCreated(db: Store.Db, session: Option<Route.Session>, f: Form, now: int)
    requires Store.Valid(db) && Route.Caller(session).Some? && f.editandoId.None?
    ensures SaveRequest(f).verb == POST && SaveRequest(f).url == Collection
    ensures var step := Route.Post(db, session, SaveRequest(f).body, now, Route.Up);
            && step.response.Created?
            && step.response.roteiro.userId == Route.Caller(session).value
            && step.response.roteiro.destino == f.destino
            && |step.response.roteiro.atividades| == |f.atividades|
            && forall i :: 0 <= i < |f.atividades| ==>
                 && step.response.roteiro.atividades[i].nome == f.atividades[i].nome
                 && step.response.roteiro.atividades[i].data == Store.StoredDate(f.atividades[i].data)
  {
    var inputs := SaveRequest(f).body.atividades.value;
    assert inputs == ToInputs(f.atividades);
  }

  /** The record the page lists and edits. */
  function Museu(): Store.Roteiro {
    Store.Roteiro(0, "ana", "Paris", "2025-06-01", "2025-06-10", None, None, 1,
                  [Store.Activity(1, "Museu", None)])
  }

  /** As written, editing a record and saving it unchanged deletes its
      activities: the form's list is not loaded, so the full replacement on
      the server installs the (empty) list the form happens to hold. */
  lemma EditAsWrittenDropsActivities()
    ensures var db := Store.Db(map[0 := Museu()], 2);
            var session := Some(Route.Session(Some(Route.User("ana"))));
            var req := SaveRequest(EditarRoteiro(Initial(), Museu()));
            var step := Route.Put(db, session, req.body.(id := Some(0)), Route.Up);
            && Store.Valid(db)
            && req.verb == PUT && req.url == Item(0)
            && step.response.Updated?
            && |db.roteiros[0].atividades| == 1
            && step.db.roteiros[0].atividades == []
  {
    var db := Store.Db(map[0 := Museu()], 2);
    assert Store.UniqueActivityIds(db.roteiros);
  }

  /** With the activities loaded, editing a record and saving it unchanged
      keeps every field the form shows and the same activities, in order
      (under new ids); only absent notes come back as the empty text. */
  lemma EditSaveKeepsRecord(db: Store.Db, session: Option<Route.Session>, f: Form, id: Id)
    requires Store.Valid(db) && Route.Caller(session).Some?
    requires Store.OwnedBy(db, id, Route.Caller(session).value)
    ensures var r := db.roteiros[id];
            var req := SaveRequest(EditarRoteiroWithActivities(f, r));
            var step := Route.Put(db, session, req.body.(id := Some(id)), Route.Up);
            && req.verb == PUT && req.url == Item(id)
            && step.response.Updated?
            && var r' := step.db.roteiros[id];
            && r'.destino == r.destino && r'.dataInicio == r.dataInicio && r'.dataFim == r.dataFim
            && r'.orcamento == r.orcamento
            && r'.notas == (if r.notas.Some? then r.notas else Some(""))
            && r'.userId == r.userId && r'.createdAt == r.createdAt
            && |r'.atividades| == |r.atividades|
            && forall i :: 0 <= i < |r.atividades| ==>
                 r'.atividades[i].nome == r.atividades[i].nome && r'.atividades[i].data == r.atividades[i].data
  {
    var r := db.roteiros[id];
    assert Store.Normalised(r);
    var f' := EditarRoteiroWithActivities(f, r);
    var req := SaveRequest(f');
    var inputs := req.body.atividades.value;
    assert inputs == ToInputs(f'.atividades);
    assert forall i :: 0 <= i < |r.atividades| ==> inputs[i].data == r.atividades[i].data;
  }
}
