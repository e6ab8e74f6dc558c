/** What the session listing shows after any run of store calls. */
module ListedRuns {
  import opened Types
  import opened Quads
  import opened CayleyStore
  import opened WriteThrough
  import opened StoreTheorems
  import opened Sessions
  import opened StoreRuns

  lemma RegisteredIDs(k: Kept, q: Quad)
    requires Faithful(k) && q in Out(k.quads, GLOBAL_SESSIONS, PMember)
    ensures q.obj.IRI? && q.obj.id in k.table && q == MemberQuad(q.obj.id) && ID(ValToStr(q.obj)) == q.obj.id
  {
    assert RegistryAt(k, q);
  }

  lemma ListedIsKept(k: Kept, sid: ID)
    requires Faithful(k)
    ensures Listed(k.quads, sid) <==> sid in k.table
  {
    hide Faithful;
    if Listed(k.quads, sid) {
      var q :| q in Out(k.quads, GLOBAL_SESSIONS, PMember) && sid == ID(ValToStr(q.obj));
      RegisteredIDs(k, q);
    }
    if sid in k.table {
      KeptAt(k, sid);
      assert MemberQuad(sid) in Out(k.quads, GLOBAL_SESSIONS, PMember);
      assert ID(ValToStr(MemberQuad(sid).obj)) == sid;
    }
  }

  lemma KeptAt(k: Kept, sid: ID)
    requires Faithful(k) && sid in k.table
    ensures EntryHeld(k.quads, sid, k.table[sid]) && MemberQuad(sid) in k.quads && Out(k.quads, sid, PTimestamp) != {}
  {
    assert EntryAt(k, sid) && RegistryAt(k, MemberQuad(sid));
    StampKept(k.quads, sid, k.table[sid]);
    assert Quad(sid, PTimestamp, TimeText(k.table[sid].session.timestamp), sid) in Out(k.quads, sid, PTimestamp);
  }

  /** A kept session reads as it was created, whatever order the reads come in. */
  lemma ReadIsKept(k: Kept, s: Session)
    requires Faithful(k) && s.id in k.table
    ensures IsRead(k.quads, s) <==> s == k.table[s.id].session
  {
    hide Faithful, Holds, SessionRead;
    KeptAt(k, s.id);
    var e := k.table[s.id];
    if IsRead(k.quads, s) {
      var st :| SessionRead(k.quads, s.id, s, st);
      SessionReadBack(k.quads, e.session, e.nodes, e.ending, s, st);
    }
    if s == e.session {
      var t := ReadExists(k.quads, s.id);
      var st :| SessionRead(k.quads, s.id, t, st);
      SessionReadBack(k.quads, e.session, e.nodes, e.ending, t, st);
    }
  }

  /** The listing shows exactly the created sessions, each as created. */
  lemma ListsTheTable(k: Kept, s: Session)
    requires Faithful(k)
    ensures IsListed(k.quads, s) <==> s.id in k.table && s == k.table[s.id].session
  {
    hide Faithful, Listed, IsRead;
    ListedIsKept(k, s.id);
    if s.id in k.table { ReadIsKept(k, s); }
  }

  lemma FaithfulIsCoherent(k: Kept)
    requires Faithful(k)
    ensures Coherent(k.quads)
  {
    hide Faithful, Listed, IsListed, EntryHeld;
    var members := Out(k.quads, GLOBAL_SESSIONS, PMember);
    forall q, p | q in members && p in members && ValToStr(q.obj) == ValToStr(p.obj)
      ensures q == p
    {
      RegisteredIDs(k, q);
      RegisteredIDs(k, p);
    }
    ListedIsKept(k, NO_ID);
    if NO_ID in k.table { NoEmptyKey(k); }
    forall s, t | IsListed(k.quads, s) && IsListed(k.quads, t) && s.id == t.id ensures s == t {
      ListsTheTable(k, s);
      ListsTheTable(k, t);
    }
  }

  lemma NoEmptyKey(k: Kept)
    requires Faithful(k)
    ensures NO_ID !in k.table
  {
    assert EntryAt(k, NO_ID);
  }

  /** No two created sessions share a timestamp. */
  ghost predicate StampsApart(k: Kept) {
    forall a, b :: a in k.table && b in k.table && k.table[a].session.timestamp == k.table[b].session.timestamp ==>
      a == b
  }

  lemma StampsApartIff(k: Kept)
    requires Faithful(k)
    ensures DistinctStamps(k.quads) <==> StampsApart(k)
  {
    hide Faithful, IsListed;
    if DistinctStamps(k.quads) {
      forall a, b | a in k.table && b in k.table && k.table[a].session.timestamp == k.table[b].session.timestamp
        ensures a == b
      {
        KeyIsID(k, a);
        KeyIsID(k, b);
        ListsTheTable(k, k.table[a].session);
        ListsTheTable(k, k.table[b].session);
      }
    }
    if StampsApart(k) {
      forall s, t | IsListed(k.quads, s) && IsListed(k.quads, t) && s.timestamp == t.timestamp ensures s == t {
        ListsTheTable(k, s);
        ListsTheTable(k, t);
      }
    }
  }

  lemma KeyIsID(k: Kept, sid: ID)
    requires Faithful(k) && sid in k.table
    ensures k.table[sid].session.id == sid
  {
    assert EntryAt(k, sid);
  }

  // ----- runs -----

  ghost predicate CreatedBy(calls: seq<Call>, sess: Session) {
    Create(sess) in calls
  }

  /** The table has one entry for each create of the run. */
  lemma {:induction false} TableIsCreated(calls: seq<Call>, sess: Session)
    requires AfterCalls(calls).Some?
    ensures var k := AfterCalls(calls).value;
      CreatedBy(calls, sess) <==> sess.id in k.table && k.table[sess.id].session == sess
  {
    hide Faithful, UnusedNode, UnusedSession;
    if calls != [] {
      var before, call := calls[..|calls| - 1], calls[|calls| - 1];
      assert calls == before + [call];
      TableIsCreated(before, sess);
      RunsAreFaithful(before);
      var k := AfterCalls(before).value;
      if call.Create? { CreateIsNew(k, call.session); }
    }
  }

  /** After any run of store calls, a listing shows exactly the sessions that were created. */
  lemma ListingShowsCreated(calls: seq<Call>, l: seq<Session>, s: Session)
    requires AfterCalls(calls).Some? && Listing(AfterCalls(calls).value.quads, l)
    ensures DistinctIDs(l) && (s in l <==> CreatedBy(calls, s))
  {
    hide Faithful, IsListed, Listing;
    var k := AfterCalls(calls).value;
    RunsAreFaithful(calls);
    FaithfulIsCoherent(k);
    ListingMember(k.quads, l, s);
    ListingIDs(k.quads, l);
    ListsTheTable(k, s);
    TableIsCreated(calls, s);
  }

  /**
   After any run of store calls, every way of following the cursors shows every created session, for
   every limit, exactly when no two sessions were created with the same timestamp.
   */
  lemma PagesShowCreatedIff(calls: seq<Call>)
    requires AfterCalls(calls).Some?
    ensures
      (forall limit: int, s: Session, n: nat :: CreatedBy(calls, s) ==>
        !CanMiss(AfterCalls(calls).value.quads, "", limit, s.id, n))
      <==> (forall s, t :: CreatedBy(calls, s) && CreatedBy(calls, t) && s.timestamp == t.timestamp ==> s == t)
  {
    hide Faithful, CanMiss, DistinctStamps, Listed, CreatedBy, AfterCalls;
    var k := AfterCalls(calls).value;
    RunsAreFaithful(calls);
    FaithfulIsCoherent(k);
    PagesShowAllIff(k.quads);
    StampsApartIff(k);
    forall s ensures CreatedBy(calls, s) <==> s.id in k.table && k.table[s.id].session == s {
      TableIsCreated(calls, s);
    }
    forall sid ensures Listed(k.quads, sid) <==> sid in k.table { ListedIsKept(k, sid); }
    forall sid | sid in k.table ensures k.table[sid].session.id == sid { KeyIsID(k, sid); }
  }
}
