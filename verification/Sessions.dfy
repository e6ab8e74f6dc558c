/** Listing the sessions of a store page by page. */
module Sessions {
  import opened Types
  import opened GraphShape
  import opened Quads
  import opened CayleyStore

  const DEFAULT_LIMIT := 50

  // ----- what a listing is -----

  ghost function MemberIDs(quads: set<Quad>): set<ID> {
    set q | q in Out(quads, GLOBAL_SESSIONS, PMember) :: ID(ValToStr(q.obj))
  }

  /** Registered, and with a timestamp to show for it. */
  ghost predicate Listed(quads: set<Quad>, sid: ID) {
    sid in MemberIDs(quads) && Out(quads, sid, PTimestamp) != {}
  }

  ghost predicate IsRead(quads: set<Quad>, s: Session) {
    exists st :: SessionRead(quads, s.id, s, st)
  }

  /** Each session is registered once. */
  ghost predicate RegisteredOnce(quads: set<Quad>) {
    forall q, p :: q in Out(quads, GLOBAL_SESSIONS, PMember) && p in Out(quads, GLOBAL_SESSIONS, PMember) ==>
      (ValToStr(q.obj) == ValToStr(p.obj) ==> q == p)
  }

  ghost predicate DistinctIDs(l: seq<Session>) {
    forall i, j :: 0 <= i < j < |l| ==> l[i].id != l[j].id
  }

  ghost predicate TimeOrdered(l: seq<Session>) {
    forall i, j :: 0 <= i < j < |l| ==> l[i].timestamp <= l[j].timestamp
  }

  ghost predicate Names(l: seq<Session>, sid: ID) {
    exists i :: 0 <= i < |l| && l[i].id == sid
  }

  /** l shows exactly the listed sessions, in ascending timestamp order. */
  ghost predicate Listing(quads: set<Quad>, l: seq<Session>) {
    && TimeOrdered(l)
    && (forall s :: s in l ==> IsRead(quads, s))
    && (forall sid {:trigger Listed(quads, sid)} :: Listed(quads, sid) <==> Names(l, sid))
    && (RegisteredOnce(quads) ==> DistinctIDs(l))
  }

  // ----- one page -----

  function Limit(limit: int): (n: nat)
    ensures n > 0
  {
    if limit <= 0 then DEFAULT_LIMIT else limit
  }

  /** The position of the session named by the cursor, or |l|. */
  function Find(l: seq<Session>, cursor: string): (i: nat)
    ensures i <= |l| && (i < |l| ==> l[i].id.text == cursor)
    ensures forall k :: 0 <= k < i ==> l[k].id.text != cursor
  {
    if l == [] || l[0].id.text == cursor then 0 else 1 + Find(l[1..], cursor)
  }

  /** What remains after the cursor; an unknown cursor starts over. */
  function Rest(l: seq<Session>, cursor: string): seq<Session> {
    if cursor == "" || Find(l, cursor) == |l| then l else l[Find(l, cursor) + 1..]
  }

  function Page(l: seq<Session>, cursor: string, limit: int): (seq<Session>, string) {
    var rest := Rest(l, cursor);
    var n := Limit(limit);
    if |rest| > n then (rest[..n], rest[n - 1].id.text) else (rest, "")
  }

  /** The place in the list from which a page is cut: after the cursor, or the front if nothing has that ID. */
  ghost predicate StartsFrom(l: seq<Session>, cursor: string, from: nat) {
    if cursor == "" || forall k :: 0 <= k < |l| ==> l[k].id.text != cursor then from == 0
    else
      && 0 < from <= |l| && l[from - 1].id.text == cursor
      && forall k :: 0 <= k < from - 1 ==> l[k].id.text != cursor
  }

  /** At most `limit` sessions, fifty if that is not positive, and the ID of the last one as cursor if more follow. */
  ghost predicate Cut(l: seq<Session>, cursor: string, limit: int, page: seq<Session>, next: string) {
    var n := if limit > 0 then limit else 50;
    exists from: nat :: StartsFrom(l, cursor, from) && from <= |l|
      && if |l| - from <= n then page == l[from..] && next == ""
         else page == l[from..from + n] && next == l[from + n - 1].id.text
  }

  lemma PageIsCut(l: seq<Session>, cursor: string, limit: int)
    ensures Cut(l, cursor, limit, Page(l, cursor, limit).0, Page(l, cursor, limit).1)
  {
    var from := if cursor == "" || Find(l, cursor) == |l| then 0 else Find(l, cursor) + 1;
    assert StartsFrom(l, cursor, from);
    assert Rest(l, cursor) == l[from..];
  }

  method SortByTime(l: seq<Session>) returns (s: seq<Session>)
    ensures TimeOrdered(s) && |s| == |l|
    ensures forall x :: x in s <==> x in l
    ensures DistinctIDs(l) ==> DistinctIDs(s)
  {
    s := [];
    for i := 0 to |l|
      invariant |s| == i && TimeOrdered(s)
      invariant forall x :: x in s <==> x in l[..i]
      invariant DistinctIDs(l) ==> DistinctIDs(s)
    {
      var k := 0;
      while k < |s| && s[k].timestamp <= l[i].timestamp
        invariant k <= |s| && forall j :: 0 <= j < k ==> s[j].timestamp <= l[i].timestamp
      {
        k := k + 1;
      }
      InsertKeeps(l, i, s, k);
      s := s[..k] + [l[i]] + s[k..];
    }
    assert l[..|l|] == l;
  }

  lemma InsertKeeps(l: seq<Session>, i: nat, s: seq<Session>, k: nat)
    requires i < |l| && |s| == i && k <= |s| && TimeOrdered(s)
    requires forall x :: x in s <==> x in l[..i]
    requires forall j :: 0 <= j < k ==> s[j].timestamp <= l[i].timestamp
    requires k < |s| ==> l[i].timestamp < s[k].timestamp
    requires DistinctIDs(l) ==> DistinctIDs(s)
    ensures var t := s[..k] + [l[i]] + s[k..];
      TimeOrdered(t) && (forall x :: x in t <==> x in l[..i + 1]) && (DistinctIDs(l) ==> DistinctIDs(t))
  {
    hide TimeOrdered, DistinctIDs;
    var t := Inserted(s, k, l[i]);
    InsertOrdered(s, k, l[i]);
    InsertNamed(s, k, l[i]);
    assert l[..i + 1] == l[..i] + [l[i]];
    if DistinctIDs(l) {
      NewName(l, i, s);
      InsertDistinct(s, k, l[i]);
    }
  }

  lemma NewName(l: seq<Session>, i: nat, s: seq<Session>)
    requires i < |l| && DistinctIDs(l) && forall x :: x in s <==> x in l[..i]
    ensures !Names(s, l[i].id)
  {
    forall j | 0 <= j < |s| ensures s[j].id != l[i].id {
      assert s[j] in l[..i];
      var m :| 0 <= m < i && l[m] == s[j];
    }
  }

  method ReadSessions(store: Store) returns (sessions: seq<Session>)
    ensures forall s :: s in sessions ==> IsRead(store.quads, s)
    ensures forall sid {:trigger Listed(store.quads, sid)} :: Listed(store.quads, sid) <==> Names(sessions, sid)
    ensures RegisteredOnce(store.quads) ==> DistinctIDs(sessions)
  {
    hide ReadFrom, IsRead, Listed, Names, DistinctIDs, RegisteredOnce, SessionRead;
    var vals, qs := store.OutValues(GLOBAL_SESSIONS, PMember);
    sessions := [];
    ghost var from: seq<nat> := [];
    ReadNothing(store.quads, qs);
    for i := 0 to |vals|
      invariant |from| == |sessions| && ReadFrom(store.quads, qs, i, sessions, from)
    {
      var sid := ID(ValToStr(vals[i]));
      var found := store.GetSession(sid);
      ReadMore(store.quads, qs, i, sessions, from, found);
      if found.Ok? {
        sessions := sessions + [found.value.0];
        from := from + [i];
      }
    }
    ReadFromAll(store.quads, qs, sessions, from);
  }

  /** Session k came from registration from[k], and no registration before i with a timestamp was left out. */
  ghost predicate ReadFrom(quads: set<Quad>, qs: seq<Quad>, i: nat, sessions: seq<Session>, from: seq<nat>) {
    && |from| == |sessions| && i <= |qs|
    && (forall k :: 0 <= k < |from| ==> from[k] < i)
    && (forall k :: 0 <= k < |from| ==> sessions[k].id == ID(ValToStr(qs[from[k]].obj)))
    && (forall k :: 0 <= k < |from| ==> IsRead(quads, sessions[k]))
    && (forall k, j :: 0 <= k < j < |from| ==> from[k] < from[j])
    && forall m: nat {:trigger qs[m]} :: m < i && Out(quads, ID(ValToStr(qs[m].obj)), PTimestamp) != {} ==> m in from
  }

  lemma ReadNothing(quads: set<Quad>, qs: seq<Quad>)
    ensures ReadFrom(quads, qs, 0, [], [])
  {
  }

  lemma ReadMore(quads: set<Quad>, qs: seq<Quad>, i: nat, sessions: seq<Session>, from: seq<nat>,
                 found: Result<(Session, SessionStatus), Error>)
    requires i < |qs| && ReadFrom(quads, qs, i, sessions, from)
    requires found.Err? <==> Out(quads, ID(ValToStr(qs[i].obj)), PTimestamp) == {}
    requires found.Ok? ==> SessionRead(quads, ID(ValToStr(qs[i].obj)), found.value.0, found.value.1)
    ensures if found.Ok? then ReadFrom(quads, qs, i + 1, sessions + [found.value.0], from + [i])
            else ReadFrom(quads, qs, i + 1, sessions, from)
  {
    if found.Ok? {
      var raw :| RawSessionRead(quads, ID(ValToStr(qs[i].obj)), raw)
        && found.value.0 == raw.AsSession(ID(ValToStr(qs[i].obj)));
      assert IsRead(quads, found.value.0);
      assert forall m: nat :: m in from + [i] <==> m in from || m == i;
    }
  }

  lemma ReadFromAll(quads: set<Quad>, qs: seq<Quad>, sessions: seq<Session>, from: seq<nat>)
    requires Lists(qs, Out(quads, GLOBAL_SESSIONS, PMember)) && ReadFrom(quads, qs, |qs|, sessions, from)
    ensures forall s :: s in sessions ==> IsRead(quads, s)
    ensures forall sid {:trigger Listed(quads, sid)} :: Listed(quads, sid) <==> Names(sessions, sid)
    ensures RegisteredOnce(quads) ==> DistinctIDs(sessions)
  {
    forall sid ensures Listed(quads, sid) <==> Names(sessions, sid) {
      if Listed(quads, sid) {
        var q :| q in Out(quads, GLOBAL_SESSIONS, PMember) && sid == ID(ValToStr(q.obj));
        assert q in qs;
        var m: nat :| m < |qs| && qs[m] == q;
        assert m in from;
        var k :| 0 <= k < |from| && from[k] == m;
        assert sessions[k].id == sid;
      }
      if Names(sessions, sid) {
        var k :| 0 <= k < |sessions| && sessions[k].id == sid;
        ReadIsStamped(quads, sessions[k]);
        assert qs[from[k]] in qs;
      }
    }
    if RegisteredOnce(quads) {
      forall i, j | 0 <= i < j < |sessions| ensures sessions[i].id != sessions[j].id {
        assert qs[from[i]] in qs && qs[from[j]] in qs && qs[from[i]] != qs[from[j]];
      }
    }
  }

  lemma ReadIsStamped(quads: set<Quad>, s: Session)
    requires IsRead(quads, s)
    ensures Out(quads, s.id, PTimestamp) != {}
  {
    var st :| SessionRead(quads, s.id, s, st);
    var raw :| RawSessionRead(quads, s.id, raw) && raw.timestamp.Some? && st == raw.Status()
      && s == raw.AsSession(s.id);
    var q :| q in Out(quads, s.id, PTimestamp) && q.obj == raw.timestamp.value;
  }

  /** One page of the sessions, and where to go on. */
  method ListSessions(store: Store, cursor: string, limit: int)
    returns (page: seq<Session>, next: string, ghost l: seq<Session>)
    ensures Listing(store.quads, l) && (page, next) == Page(l, cursor, limit)
    ensures Cut(l, cursor, limit, page, next)
  {
    hide Listing, Listed, IsRead, Names, TimeOrdered, DistinctIDs, RegisteredOnce, Cut, StartsFrom;
    var n := limit;
    if n <= 0 { n := DEFAULT_LIMIT; }
    var read := ReadSessions(store);
    var sessions := SortByTime(read);
    IsListing(store.quads, read, sessions);
    l := sessions;
    if cursor != "" {
      for i := 0 to |sessions|
        invariant forall k :: 0 <= k < i ==> sessions[k].id.text != cursor
        invariant sessions == l
      {
        if sessions[i].id.text == cursor {
          sessions := sessions[i + 1..];
          break;
        }
      }
    }
    assert sessions == Rest(l, cursor);
    next := "";
    if |sessions| > n {
      sessions := sessions[..n];
      next := sessions[|sessions| - 1].id.text;
    }
    page := sessions;
    PageIsCut(l, cursor, limit);
  }

  lemma IsListing(quads: set<Quad>, read: seq<Session>, l: seq<Session>)
    requires forall s :: s in read ==> IsRead(quads, s)
    requires forall sid {:trigger Listed(quads, sid)} :: Listed(quads, sid) <==> Names(read, sid)
    requires RegisteredOnce(quads) ==> DistinctIDs(read)
    requires TimeOrdered(l) && (forall x :: x in l <==> x in read) && (DistinctIDs(read) ==> DistinctIDs(l))
    ensures Listing(quads, l)
  {
    SameNames(read, l);
  }

  lemma SameNames(l: seq<Session>, s: seq<Session>)
    requires forall x :: x in s <==> x in l
    ensures forall sid :: Names(s, sid) <==> Names(l, sid)
  {
    forall sid ensures Names(s, sid) <==> Names(l, sid) {
      if Names(s, sid) {
        var i :| 0 <= i < |s| && s[i].id == sid;
        assert s[i] in l;
      }
      if Names(l, sid) {
        var i :| 0 <= i < |l| && l[i].id == sid;
        assert l[i] in s;
      }
    }
  }

  // ----- all pages -----

  ghost predicate IsListed(quads: set<Quad>, s: Session) {
    IsRead(quads, s) && Listed(quads, s.id)
  }

  /** Each listed session is registered once and reads in one way, and none has the empty ID. */
  ghost predicate Coherent(quads: set<Quad>) {
    && RegisteredOnce(quads) && !Listed(quads, NO_ID)
    && forall s, t :: IsListed(quads, s) && IsListed(quads, t) && s.id == t.id ==> s == t
  }

  /** No two listed sessions share a timestamp. */
  ghost predicate DistinctStamps(quads: set<Quad>) {
    forall s, t :: IsListed(quads, s) && IsListed(quads, t) && s.timestamp == t.timestamp ==> s == t
  }

  ghost predicate Settled(quads: set<Quad>) {
    Coherent(quads) && DistinctStamps(quads)
  }

  lemma ListingMember(quads: set<Quad>, l: seq<Session>, s: Session)
    requires Coherent(quads) && Listing(quads, l)
    ensures s in l <==> IsListed(quads, s)
  {
    if s in l {
      var i :| 0 <= i < |l| && l[i] == s;
      assert Names(l, s.id);
    }
    if IsRead(quads, s) && Listed(quads, s.id) {
      var i :| 0 <= i < |l| && l[i].id == s.id;
      assert l[i] in l && Names(l, l[i].id);
    }
  }

  lemma ListingStrict(quads: set<Quad>, l: seq<Session>)
    requires Settled(quads) && Listing(quads, l)
    ensures StrictlyOrdered(l)
  {
    forall i, j | 0 <= i < j < |l| ensures l[i].timestamp < l[j].timestamp {
      assert l[i] in l && l[j] in l;
      ListingMember(quads, l, l[i]);
      ListingMember(quads, l, l[j]);
    }
  }

  ghost predicate StrictlyOrdered(l: seq<Session>) {
    forall i, j :: 0 <= i < j < |l| ==> l[i].timestamp < l[j].timestamp
  }

  lemma WithoutLast(l: seq<Session>, s: Session)
    requires StrictlyOrdered(l) && l != []
    ensures s in l[..|l| - 1] <==> s in l && s != l[|l| - 1]
    ensures s in l ==> s.timestamp <= l[|l| - 1].timestamp
  {
    assert l == l[..|l| - 1] + [l[|l| - 1]];
  }

  lemma {:induction false} StrictOrderUnique(l: seq<Session>, k: seq<Session>)
    requires StrictlyOrdered(l) && StrictlyOrdered(k) && |l| == |k|
    requires forall s :: s in l <==> s in k
    ensures l == k
  {
    if l != [] {
      var m := |l| - 1;
      assert l[m] in k && k[m] in l;
      WithoutLast(l, k[m]);
      WithoutLast(k, l[m]);
      assert l[m].timestamp == k[m].timestamp;
      var i :| 0 <= i < |k| && k[i] == l[m];
      assert i == m;
      forall s ensures s in l[..m] <==> s in k[..m] {
        WithoutLast(l, s);
        WithoutLast(k, s);
      }
      StrictOrderUnique(l[..m], k[..m]);
      assert l == l[..m] + [l[m]] && k == k[..m] + [k[m]];
    }
  }

  /** On a fixed store with distinct timestamps every call works on the same listing. */
  lemma ListingUnique(quads: set<Quad>, l: seq<Session>, k: seq<Session>)
    requires Settled(quads) && Listing(quads, l) && Listing(quads, k)
    ensures l == k
  {
    ListingStrict(quads, l);
    ListingStrict(quads, k);
    forall s ensures s in l <==> s in k {
      ListingMember(quads, l, s);
      ListingMember(quads, k, s);
    }
    SameMembersSameLength(l, k);
    StrictOrderUnique(l, k);
  }

  /** The cursor that stands for position pos. */
  ghost function CursorAt(l: seq<Session>, pos: nat): string
    requires pos <= |l|
  {
    if pos == 0 then "" else l[pos - 1].id.text
  }

  lemma RestAt(l: seq<Session>, pos: nat)
    requires DistinctIDs(l) && pos <= |l| && forall s :: s in l ==> s.id != NO_ID
    ensures Rest(l, CursorAt(l, pos)) == l[pos..]
  {
    if pos > 0 {
      assert l[pos - 1] in l;
      var i := Find(l, l[pos - 1].id.text);
      assert i < |l| && l[i].id == l[pos - 1].id;
    }
  }

  /** The cursor handed out at a position leads on from exactly there. */
  lemma PageAt(l: seq<Session>, pos: nat, limit: int)
    requires DistinctIDs(l) && pos <= |l| && forall s :: s in l ==> s.id != NO_ID
    ensures var end := if pos + Limit(limit) < |l| then pos + Limit(limit) else |l|;
      Page(l, CursorAt(l, pos), limit) == (l[pos..end], if end < |l| then CursorAt(l, end) else "")
  {
    RestAt(l, pos);
    var n := Limit(limit);
    if pos + n < |l| {
      assert l[pos..][..n] == l[pos..pos + n];
      assert l[pos..][n - 1] == l[pos + n - 1];
    } else {
      assert l[pos..] == l[pos..|l|];
    }
  }

  /** Where the page at position pos ends. */
  ghost function PageEnd(l: seq<Session>, pos: nat, limit: int): (end: nat)
    requires pos <= |l|
    ensures pos <= end <= |l| && (pos < |l| ==> pos < end)
  {
    if pos + Limit(limit) < |l| then pos + Limit(limit) else |l|
  }

  /**
   On a store whose listing is l, a call at position pos returns the page there and leads on exactly while there is
   more.
   */
  lemma PageLeadsOn(quads: set<Quad>, l: seq<Session>, again: seq<Session>, pos: nat, limit: int)
    requires Settled(quads) && Listing(quads, l) && Listing(quads, again) && pos <= |l|
    ensures var (page, next) := Page(again, CursorAt(l, pos), limit);
      var end := PageEnd(l, pos, limit);
      page == l[pos..end] && next == (if end < |l| then CursorAt(l, end) else "") && (next == "" <==> end == |l|)
  {
    ListingUnique(quads, l, again);
    NoEmptyID(quads, l);
    PageAt(l, pos, limit);
    var end := PageEnd(l, pos, limit);
    if end < |l| { assert l[end - 1] in l; }
  }

  /**
   Following the cursors from "" to "" visits every session exactly once, in timestamp order, and stops,
   whatever the limit.
   */
  method FollowCursors(store: Store, limit: int) returns (visited: seq<Session>)
    requires Settled(store.quads)
    ensures Listing(store.quads, visited) && DistinctIDs(visited) && StrictlyOrdered(visited)
  {
    var page, next, l := ListSessions(store, "", limit);
    ListingStrict(store.quads, l);
    PageLeadsOn(store.quads, l, l, 0, limit);
    ghost var end := PageEnd(l, 0, limit);
    visited := page;
    while next != ""
      invariant end <= |l| && visited == l[..end] && (next == "" <==> end == |l|)
      invariant next != "" ==> end > 0 && next == CursorAt(l, end)
      decreases |l| - end
    {
      ghost var pos, again := end, l;
      page, next, again := ListSessions(store, next, limit);
      PageLeadsOn(store.quads, l, again, pos, limit);
      end := PageEnd(l, pos, limit);
      PrefixGrows(l, pos, end);
      visited := visited + page;
    }
    assert visited == l;
  }

  lemma PrefixGrows(l: seq<Session>, i: nat, j: nat)
    requires i <= j <= |l|
    ensures l[..i] + l[i..j] == l[..j]
  {
  }

  lemma NoEmptyID(quads: set<Quad>, l: seq<Session>)
    requires Coherent(quads) && Listing(quads, l)
    ensures forall s :: s in l ==> s.id != NO_ID
  {
    forall s | s in l ensures s.id != NO_ID { ListingMember(quads, l, s); }
  }

  // ----- equal timestamps -----

  /**
   Some sequence of at most n + 1 calls, each free to order equal timestamps as it likes, starts at the
   cursor and ends without having shown session id.
   */
  ghost predicate CanMiss(quads: set<Quad>, cursor: string, limit: int, id: ID, n: nat)
    decreases n
  {
    exists l :: Listing(quads, l) && PageMisses(quads, Page(l, cursor, limit), limit, id, n)
  }

  ghost predicate PageMisses(quads: set<Quad>, answer: (seq<Session>, string), limit: int, id: ID, n: nat)
    decreases n, 0
  {
    !Names(answer.0, id) && (answer.1 == "" || (n > 0 && CanMiss(quads, answer.1, limit, id, n - 1)))
  }

  lemma ReadExists(quads: set<Quad>, sid: ID) returns (s: Session)
    requires Out(quads, sid, PTimestamp) != {}
    ensures s.id == sid && IsRead(quads, s)
  {
    var ts := FirstExists(quads, sid, PTimestamp);
    var status := FirstExists(quads, sid, PStatus);
    var ss := FirstExists(quads, sid, PSpawnedFromSession);
    var sn := FirstExists(quads, sid, PSpawnedFromNode);
    var raw := RawSession(ts, status, ss, sn);
    s := raw.AsSession(sid);
    assert RawSessionRead(quads, sid, raw);
    assert SessionRead(quads, sid, s, raw.Status());
  }

  /** The place of x in a listing that is already in order. */
  lemma {:induction false} PlaceFor(l: seq<Session>, x: Session, from: nat) returns (k: nat)
    requires from <= |l| && forall j :: 0 <= j < from ==> l[j].timestamp <= x.timestamp
    ensures k <= |l| && (forall j :: 0 <= j < k ==> l[j].timestamp <= x.timestamp)
    ensures k < |l| ==> x.timestamp < l[k].timestamp
    decreases |l| - from
  {
    if from < |l| && l[from].timestamp <= x.timestamp { k := PlaceFor(l, x, from + 1); } else { k := from; }
  }

  lemma EmptyListing()
    ensures TimeOrdered([]) && DistinctIDs([])
  {
  }

  lemma {:induction false} ListingOf(quads: set<Quad>, ids: set<ID>) returns (l: seq<Session>)
    requires forall sid :: sid in ids ==> Listed(quads, sid)
    ensures TimeOrdered(l) && DistinctIDs(l) && (forall s :: s in l ==> IsRead(quads, s))
      && forall sid :: sid in ids <==> Names(l, sid)
  {
    hide TimeOrdered, DistinctIDs, Inserted;
    l := [];
    EmptyListing();
    if ids != {} {
      var sid :| sid in ids;
      var rest := ListingOf(quads, ids - {sid});
      assert Listed(quads, sid);
      var s := ReadExists(quads, sid);
      var k := PlaceFor(rest, s, 0);
      l := Inserted(rest, k, s);
      InsertOrdered(rest, k, s);
      InsertDistinct(rest, k, s);
      InsertNamed(rest, k, s);
      assert forall x :: x in ids <==> x == sid || x in ids - {sid};
    }
  }

  function Inserted(rest: seq<Session>, k: nat, s: Session): seq<Session>
    requires k <= |rest|
  {
    rest[..k] + [s] + rest[k..]
  }

  lemma InsertOrdered(rest: seq<Session>, k: nat, s: Session)
    requires k <= |rest| && TimeOrdered(rest)
    requires forall j :: 0 <= j < k ==> rest[j].timestamp <= s.timestamp
    requires k < |rest| ==> s.timestamp < rest[k].timestamp
    ensures TimeOrdered(Inserted(rest, k, s))
  {
  }

  lemma InsertDistinct(rest: seq<Session>, k: nat, s: Session)
    requires k <= |rest| && DistinctIDs(rest) && !Names(rest, s.id)
    ensures DistinctIDs(Inserted(rest, k, s))
  {
  }

  lemma InsertNamed(rest: seq<Session>, k: nat, s: Session)
    requires k <= |rest|
    ensures var l := Inserted(rest, k, s);
      (forall x :: x in l <==> x in rest || x == s) && forall sid :: Names(l, sid) <==> Names(rest, sid) || sid == s.id
  {
    var l := Inserted(rest, k, s);
    assert rest == rest[..k] + rest[k..];
    assert forall x :: x in l <==> x in rest || x == s;
    forall sid ensures Names(l, sid) <==> Names(rest, sid) || sid == s.id {
      if Names(rest, sid) {
        var i :| 0 <= i < |rest| && rest[i].id == sid;
        assert l[if i < k then i else i + 1] == rest[i];
      }
      assert l[k] == s;
    }
  }

  /** Every store has a listing. */
  lemma ListingExists(quads: set<Quad>) returns (l: seq<Session>)
    ensures Listing(quads, l)
  {
    var ids := set sid | sid in MemberIDs(quads) && Out(quads, sid, PTimestamp) != {};
    l := ListingOf(quads, ids);
    forall sid ensures Listed(quads, sid) <==> Names(l, sid) { assert sid in ids <==> Listed(quads, sid); }
  }

  function Swapped(l: seq<Session>, i: nat): seq<Session>
    requires i + 1 < |l|
  {
    l[i := l[i + 1]][i + 1 := l[i]]
  }

  /** Two neighbours with the same timestamp may come in either order. */
  lemma SwappedIsListing(quads: set<Quad>, l: seq<Session>, i: nat)
    requires Listing(quads, l) && i + 1 < |l| && l[i].timestamp == l[i + 1].timestamp
    ensures Listing(quads, Swapped(l, i))
  {
    var k := Swapped(l, i);
    forall x ensures x in k <==> x in l {
      if x in l {
        var j :| 0 <= j < |l| && l[j] == x;
        assert k[if j == i then i + 1 else if j == i + 1 then i else j] == x;
      }
    }
    SameNames(l, k);
    assert TimeOrdered(k) && (DistinctIDs(l) ==> DistinctIDs(k));
  }

  lemma TailNames(l: seq<Session>, pos: nat, end: nat, id: ID)
    requires pos <= end <= |l|
    ensures Names(l[pos..], id) <==> Names(l[pos..end], id) || Names(l[end..], id)
  {
    if Names(l[pos..], id) {
      var k :| 0 <= k < |l| - pos && l[pos..][k].id == id;
      if pos + k < end { assert l[pos..end][k].id == id; } else { assert l[end..][pos + k - end].id == id; }
    }
    if Names(l[pos..end], id) {
      var k :| 0 <= k < end - pos && l[pos..end][k].id == id;
      assert l[pos..][k].id == id;
    }
    if Names(l[end..], id) {
      var k :| 0 <= k < |l| - end && l[end..][k].id == id;
      assert l[pos..][k + end - pos].id == id;
    }
  }

  lemma EmptyTail(l: seq<Session>, id: ID)
    ensures !Names(l[|l|..], id)
  {
  }

  /** From a position of a possible listing, the calls may show just what comes after it. */
  lemma {:induction false} ShowsOnlyRest(quads: set<Quad>, l: seq<Session>, pos: nat, limit: int, id: ID, n: nat)
    requires Listing(quads, l) && DistinctIDs(l) && (forall s :: s in l ==> s.id != NO_ID)
    requires pos <= |l| <= pos + n && !Names(l[pos..], id)
    ensures CanMiss(quads, CursorAt(l, pos), limit, id, n)
    decreases |l| - pos
  {
    hide Listing, Names, DistinctIDs, Page;
    PageAt(l, pos, limit);
    var end := PageEnd(l, pos, limit);
    TailNames(l, pos, end, id);
    if end < |l| {
      ShowsOnlyRest(quads, l, end, limit, id, n - 1);
    }
    assert PageMisses(quads, Page(l, CursorAt(l, pos), limit), limit, id, n);
  }

  /**
   A session can be missed: at two neighbours with the same timestamp, a first page that ends between them
   hands out a cursor after which the second one no longer comes when the next call orders them the other way.
   */
  lemma TiesCanSkip(quads: set<Quad>, l: seq<Session>, i: nat)
    requires Coherent(quads) && Listing(quads, l) && i + 1 < |l| && l[i].timestamp == l[i + 1].timestamp
    ensures Listing(quads, Swapped(l, i))
    ensures Page(l, "", i + 1) == (l[..i + 1], l[i].id.text)
    ensures !Names(Rest(Swapped(l, i), l[i].id.text), l[i + 1].id)
    ensures CanMiss(quads, "", i + 1, l[i + 1].id, |l|)
  {
    hide Listing, CanMiss, Listed, IsRead;
    var k, missed := Swapped(l, i), l[i + 1].id;
    SwappedIsListing(quads, l, i);
    ListingIDs(quads, l);
    ListingIDs(quads, k);
    PageAt(l, 0, i + 1);
    RestAt(k, i + 2);
    assert CursorAt(k, i + 2) == l[i].id.text && k[i] == l[i + 1];
    assert l[0..i + 1] == l[..i + 1];
    ShowsOnlyRest(quads, k, i + 2, i + 1, missed, |l| - 1);
    MissFromPage(quads, l, i + 1, missed, |l|);
  }

  lemma MissFromPage(quads: set<Quad>, l: seq<Session>, limit: int, id: ID, n: nat)
    requires Listing(quads, l) && PageMisses(quads, Page(l, "", limit), limit, id, n)
    ensures CanMiss(quads, "", limit, id, n)
  {
  }

  lemma ListingIDs(quads: set<Quad>, l: seq<Session>)
    requires Coherent(quads) && Listing(quads, l)
    ensures DistinctIDs(l) && forall s :: s in l ==> s.id != NO_ID
  {
    NoEmptyID(quads, l);
  }

  /** With distinct timestamps no sequence of calls misses anything. */
  lemma {:induction false} NothingMissed(quads: set<Quad>, l: seq<Session>, pos: nat, limit: int, id: ID, n: nat)
    requires Settled(quads) && Listing(quads, l) && pos <= |l| && Names(l[pos..], id)
    ensures !CanMiss(quads, CursorAt(l, pos), limit, id, n)
    decreases n
  {
    hide Settled, Listing, Names, Page;
    var end := PageEnd(l, pos, limit);
    TailNames(l, pos, end, id);
    EmptyTail(l, id);
    if n > 0 && Names(l[end..], id) { NothingMissed(quads, l, end, limit, id, n - 1); }
    forall again | Listing(quads, again)
      ensures !PageMisses(quads, Page(again, CursorAt(l, pos), limit), limit, id, n)
    {
      PageLeadsOn(quads, l, again, pos, limit);
    }
  }

  lemma TiesAdjoin(l: seq<Session>, i: nat, j: nat)
    requires TimeOrdered(l) && i < j < |l| && l[i].timestamp == l[j].timestamp
    ensures l[i].timestamp == l[i + 1].timestamp
  {
  }

  lemma TieInListing(quads: set<Quad>, l: seq<Session>) returns (i: nat)
    requires Coherent(quads) && !DistinctStamps(quads) && Listing(quads, l)
    ensures i + 1 < |l| && l[i].timestamp == l[i + 1].timestamp
  {
    hide Coherent, IsListed, Listing, TimeOrdered;
    var s, t :| IsListed(quads, s) && IsListed(quads, t) && s.timestamp == t.timestamp && s != t;
    ListingMember(quads, l, s);
    ListingMember(quads, l, t);
    ListingOrdered(quads, l);
    var a :| 0 <= a < |l| && l[a] == s;
    var b :| 0 <= b < |l| && l[b] == t;
    i := if a < b then a else b;
    TiesAdjoin(l, i, if a < b then b else a);
  }

  lemma ListingOrdered(quads: set<Quad>, l: seq<Session>)
    requires Listing(quads, l)
    ensures TimeOrdered(l) && forall i :: 0 <= i < |l| ==> Listed(quads, l[i].id)
  {
    forall i | 0 <= i < |l| ensures Listed(quads, l[i].id) { assert Names(l, l[i].id); }
  }

  lemma TiesMiss(quads: set<Quad>) returns (limit: int, id: ID, n: nat)
    requires Coherent(quads) && !DistinctStamps(quads)
    ensures Listed(quads, id) && CanMiss(quads, "", limit, id, n)
  {
    hide CanMiss, Coherent, DistinctStamps, Listing, Listed, Page, Rest, Names;
    var l := ListingExists(quads);
    var i := TieInListing(quads, l);
    TiesCanSkip(quads, l, i);
    ListingOrdered(quads, l);
    limit, id, n := i + 1, l[i + 1].id, |l|;
  }

  lemma DistinctShowsAll(quads: set<Quad>, limit: int, id: ID, n: nat)
    requires Settled(quads) && Listed(quads, id)
    ensures !CanMiss(quads, "", limit, id, n)
  {
    hide CanMiss, Settled, Listed;
    var l := ListingExists(quads);
    assert Names(l, id) && l[0..] == l;
    NothingMissed(quads, l, 0, limit, id, n);
  }

  /**
   Following the cursors shows every session, in every sequence of calls and for every limit, exactly when no two
   share a timestamp.
   */
  lemma PagesShowAllIff(quads: set<Quad>)
    requires Coherent(quads)
    ensures (forall limit: int, id, n: nat :: Listed(quads, id) ==> !CanMiss(quads, "", limit, id, n)) <==>
      DistinctStamps(quads)
  {
    hide CanMiss, Coherent, Listed, DistinctStamps;
    if DistinctStamps(quads) {
      forall limit: int, id, n: nat | Listed(quads, id) ensures !CanMiss(quads, "", limit, id, n) {
        DistinctShowsAll(quads, limit, id, n);
      }
    } else {
      var limit, id, n := TiesMiss(quads);
    }
  }
}
