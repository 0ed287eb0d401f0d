/** Properties of the route handlers that relate several calls or several stores. */
module RouteProps {
  import opened Base
  import opened Store
  import opened Route

  /** The owner of a created itinerary comes from the session: whatever
      `userId` the body claims, POST does exactly the same thing. */
  lemma PostIgnoresClaimedOwner(db: Db, session: Option<Session>, body: Body, claimed: Option<UserId>, now: int, backend: Backend)
    requires Valid(db)
    ensures Post(db, session, body.(userId := claimed), now, backend) == Post(db, session, body, now, backend)
  {
  }

  /** Round trip: after a successful POST, every listing of the caller's
      itineraries holds the created itinerary exactly once. */
  lemma CreatedIsListedOnce(db: Db, session: Option<Session>, body: Body, now: int, items: seq<Roteiro>)
    requires Valid(db) && Caller(session).Some? && body.atividades.Some?
    requires IsListing(Post(db, session, body, now, Up).db, Caller(session).value, items)
    ensures Post(db, session, body, now, Up).response.Created?
    ensures exists i :: 0 <= i < |items| && items[i] == Post(db, session, body, now, Up).response.roteiro
    ensures forall i, j ::
              (&& 0 <= i < |items| && 0 <= j < |items|
               && items[i] == Post(db, session, body, now, Up).response.roteiro
               && items[j] == Post(db, session, body, now, Up).response.roteiro) ==> i == j
  {
    var step := Post(db, session, body, now, Up);
    var r := step.response.roteiro;
    assert OwnedBy(step.db, r.id, Caller(session).value);
    var i :| 0 <= i < |items| && items[i].id == r.id;
    assert items[i] == step.db.roteiros[r.id] == r;
  }

  /** Deleting twice: the second DELETE of the same id is a 404 that changes nothing. */
  lemma DeleteTwiceIsNotFound(db: Db, session: Option<Session>, id: Id)
    requires Valid(db) && Caller(session).Some? && OwnedBy(db, id, Caller(session).value)
    ensures Delete(db, session, Some(id), Up).response == Deleted
    ensures var db' := Delete(db, session, Some(id), Up).db;
            Delete(db', session, Some(id), Up) == Step(NotFound, db')
  {
  }

  /** No user reaches another user's itinerary: PUT and DELETE answer 404,
      exactly as for an id that does not exist, and the record stays as it was. */
  lemma OthersRecordsUntouchable(db: Db, session: Option<Session>, body: Body, id: Id)
    requires Valid(db) && Caller(session).Some?
    requires id in db.roteiros && db.roteiros[id].userId != Caller(session).value
    ensures Put(db, session, body.(id := Some(id)), Up) == Step(NotFound, db)
    ensures Delete(db, session, Some(id), Up) == Step(NotFound, db)
    ensures Status(Put(db, session, body.(id := Some(id)), Up).response) == Some(404)
    ensures Status(Delete(db, session, Some(id), Up).response) == Some(404)
    ensures forall missing :: missing !in db.roteiros ==>
              Put(db, session, body.(id := Some(missing)), Up).response
                == Put(db, session, body.(id := Some(id)), Up).response
    ensures forall missing :: missing !in db.roteiros ==>
              Delete(db, session, Some(missing), Up) == Delete(db, session, Some(id), Up)
  {
  }

  /** The ids of a record's activities lie in the store's set of activity ids. */
  lemma ActivityIdsOfRecord(db: Db, k: Id)
    requires k in db.roteiros
    ensures ActivityIds(db.roteiros[k].atividades) <= AllActivityIds(db)
  {
    forall a | a in ActivityIds(db.roteiros[k].atividades) ensures a in AllActivityIds(db) {
      var i :| 0 <= i < |db.roteiros[k].atividades| && db.roteiros[k].atividades[i].id == a;
    }
  }

  /** Cascade: DELETE removes the itinerary's activities and no other activity. */
  lemma DeleteCascades(db: Db, session: Option<Session>, id: Id)
    requires Valid(db) && Caller(session).Some? && OwnedBy(db, id, Caller(session).value)
    ensures AllActivityIds(Delete(db, session, Some(id), Up).db)
              == AllActivityIds(db) - ActivityIds(db.roteiros[id].atividades)
  {
    var db' := Delete(db, session, Some(id), Up).db;
    var gone := db.roteiros[id].atividades;
    forall a | a in AllActivityIds(db') ensures a in AllActivityIds(db) && a !in ActivityIds(gone) {
      var k, i :| k in db'.roteiros && 0 <= i < |db'.roteiros[k].atividades| && db'.roteiros[k].atividades[i].id == a;
      assert db.roteiros[k] == db'.roteiros[k];
      forall j | 0 <= j < |gone| ensures gone[j].id != a {
        assert db.roteiros[id].atividades[j] == gone[j];
      }
    }
    forall a | a in AllActivityIds(db) && a !in ActivityIds(gone) ensures a in AllActivityIds(db') {
      var k, i :| k in db.roteiros && 0 <= i < |db.roteiros[k].atividades| && db.roteiros[k].atividades[i].id == a;
      assert gone == db.roteiros[id].atividades;
      if k != id {
        assert db'.roteiros[k].atividades[i].id == a;
      }
    }
  }

  /** Full replacement: after PUT on an owned itinerary none of its previous
      activities exists anywhere in the store, and its list is exactly the new one. */
  lemma PutReplacesActivities(db: Db, session: Option<Session>, body: Body)
    requires Valid(db) && Caller(session).Some? && body.id.Some? && body.atividades.Some?
    requires OwnedBy(db, body.id.value, Caller(session).value)
    ensures var db' := Put(db, session, body, Up).db;
            && Corresponds(db'.roteiros[body.id.value].atividades, body.atividades.value)
            && ActivityIds(db.roteiros[body.id.value].atividades) !! AllActivityIds(db')
  {
    var id := body.id.value;
    var step := Put(db, session, body, Up);
    var db' := step.db;
    var before := db.roteiros[id].atividades;
    ActivityIdsOfRecord(db, id);
    forall a | a in ActivityIds(before) ensures a !in AllActivityIds(db') {
      var j :| 0 <= j < |before| && before[j].id == a;
      forall k, i | k in db'.roteiros && 0 <= i < |db'.roteiros[k].atividades|
        ensures db'.roteiros[k].atividades[i].id != a
      {
        if k == id {
          assert db'.roteiros[k] == step.response.roteiro;
          assert a in AllActivityIds(db);
        } else {
          assert db'.roteiros[k] == db.roteiros[k];
          assert db.roteiros[id].atividades[j] == before[j];
        }
      }
    }
  }

  /** Create with one activity list, then replace with another: the stored
      list is the second one only, and no activity of the first survives. */
  lemma ReplaceAfterCreate(db: Db, session: Option<Session>, created: Body, replaced: Body, now: int)
    requires Valid(db) && Caller(session).Some? && created.atividades.Some? && replaced.atividades.Some?
    ensures var s1 := Post(db, session, created, now, Up);
            var id := s1.response.roteiro.id;
            var s2 := Put(s1.db, session, replaced.(id := Some(id)), Up);
            && s2.response.Updated?
            && Corresponds(s2.db.roteiros[id].atividades, replaced.atividades.value)
            && ActivityIds(s1.response.roteiro.atividades) !! AllActivityIds(s2.db)
  {
    var s1 := Post(db, session, created, now, Up);
    var id := s1.response.roteiro.id;
    assert s1.db.roteiros[id] == s1.response.roteiro;
    PutReplacesActivities(s1.db, session, replaced.(id := Some(id)));
  }
}
