/** Policies and the sweep of core/src/citadel_store.cpp. */
module RoomExpiry {
  import opened Text
  import opened RoomStore
  import opened RoomTables

  // ---- policies -----------------------------------------------------------

  const NEXT_LEVEL := 0
  const MANUAL := 1
  const NUM_MSGS := 2
  const AGE := 3

  datatype Policy = Policy(mode: int, value: int)
  datatype Level = OfRoom(room: int) | OfFloor(floor: int) | OfMailboxes | OfSite
  datatype Room = Room(num: int, floor: int, permanent: bool, mailbox: bool)

  type Config = map<Level, Policy>

  /** A missing entry, or one whose mode is unknown, defers to the next level. */
  function ReadPolicy(config: Config, level: Level): Policy {
    if level in config && NEXT_LEVEL <= config[level].mode <= AGE then config[level] else Policy(NEXT_LEVEL, 0)
  }

  /** The configuration with a policy set; None when it is refused. */
  function SetPolicy(config: Config, level: Level, p: Policy): Option<Config> {
    if p.mode < NEXT_LEVEL || p.mode > AGE || (p.mode >= NUM_MSGS && p.value < 1) then None
    else Some(config[level := p])
  }

  /** Every stored policy could have been set: counts and ages are at least one. */
  predicate Settable(config: Config) {
    forall level :: level in config ==>
      NEXT_LEVEL <= config[level].mode <= AGE && (config[level].mode >= NUM_MSGS ==> config[level].value >= 1)
  }

  lemma SetKeepsSettable(config: Config, level: Level, p: Policy)
    requires Settable(config)
    ensures Settable(map[])
    ensures SetPolicy(config, level, p).Some? ==> Settable(SetPolicy(config, level, p).value)
    ensures SetPolicy(config, level, p).Some? ==> ReadPolicy(SetPolicy(config, level, p).value, level) == p
  {
  }

  /** The policy that applies: the room's, else the floor's or for a mailbox the mailboxes', else the
      site's, else manual. */
  function Effective(config: Config, room: Room): (p: Policy)
    ensures p.mode != NEXT_LEVEL
    ensures Settable(config) && p.mode >= NUM_MSGS ==> p.value >= 1
  {
    var own := ReadPolicy(config, OfRoom(room.num));
    var middle := ReadPolicy(config, if room.mailbox then OfMailboxes else OfFloor(room.floor));
    var site := ReadPolicy(config, OfSite);
    if own.mode != NEXT_LEVEL then own
    else if middle.mode != NEXT_LEVEL then middle
    else if site.mode != NEXT_LEVEL then site
    else Policy(MANUAL, 0)
  }

  /** The levels that are asked for a room, in order: its own, then those of mailboxes or of its floor, then the
      site. */
  function Levels(room: Room): seq<Level> {
    [OfRoom(room.num), if room.mailbox then OfMailboxes else OfFloor(room.floor), OfSite]
  }

  /** Manual, a count and an age are the modes 1, 2 and 3; any other entry says nothing, like a missing one. */
  predicate Speaks(config: Config, level: Level) {
    level in config && 1 <= config[level].mode <= 3
  }

  /** The first level that says something decides; when none does, messages are kept by hand. */
  lemma FirstLevelDecides(config: Config, room: Room, p: Policy)
    ensures Effective(config, room) == p <==>
            || (exists k :: 0 <= k < 3 && Speaks(config, Levels(room)[k]) && config[Levels(room)[k]] == p
                            && forall j :: 0 <= j < k ==> !Speaks(config, Levels(room)[j]))
            || (p == Policy(1, 0) && forall j :: 0 <= j < 3 ==> !Speaks(config, Levels(room)[j]))
  {
    var levels := Levels(room);
    assert levels[0] == OfRoom(room.num) && levels[2] == OfSite;
    assert levels[1] == if room.mailbox then OfMailboxes else OfFloor(room.floor);
    if Speaks(config, levels[0]) {
      assert Effective(config, room) == config[levels[0]];
    } else if Speaks(config, levels[1]) {
      assert Effective(config, room) == config[levels[1]];
    } else if Speaks(config, levels[2]) {
      assert Effective(config, room) == config[levels[2]];
    }
  }

  // ---- what expires -------------------------------------------------------

  /** The messages of a room after a given one. */
  ghost function Newer(s: State, room: int, m: nat): set<nat> {
    set n | n in RoomLinks(s, room) && n > m
  }

  /** The policy of its room gives the message up. */
  ghost predicate Expires(s: State, room: Room, p: Policy, now: int, m: nat) {
    && Link(room.num, m) in s.links
    && !room.permanent
    && (|| (p.mode == NUM_MSGS && |Newer(s, room.num, m)| >= p.value)
        || (p.mode == AGE && m in s.rows && 0 < s.rows[m].msgtime < now - p.value * 86400))
  }

  ghost function ExpiredOf(s: State, room: Room, config: Config, now: int): set<Link> {
    set l | l in s.links && l.room == room.num && Expires(s, room, Effective(config, room), now, l.msg)
  }

  ghost function Expired(s: State, rooms: seq<Room>, config: Config, now: int): set<Link> {
    set l, k | l in s.links && 0 <= k < |rooms| && l in ExpiredOf(s, rooms[k], config, now) :: l
  }

  predicate DistinctRooms(rooms: seq<Room>) {
    forall i, j :: 0 <= i < j < |rooms| ==> rooms[i].num != rooms[j].num
  }

  // ---- ascending lists ----------------------------------------------------

  predicate Ascending(ms: seq<nat>) {
    forall i, j :: 0 <= i < j < |ms| ==> ms[i] < ms[j]
  }

  ghost predicate Lists(ms: seq<nat>, ns: set<nat>) {
    Ascending(ms) && forall m :: m in ms <==> m in ns
  }

  lemma {:induction false} ListSize(ms: seq<nat>, ns: set<nat>)
    requires Lists(ms, ns)
    ensures |ns| == |ms|
  {
    if ms == [] {
      assert ns == {};
    } else {
      var last := ms[|ms| - 1];
      var front := ms[..|ms| - 1];
      forall m
        ensures m in front <==> m in ns - {last}
      {
        if m in front {
          var i :| 0 <= i < |front| && front[i] == m;
          assert ms[i] == m && ms[i] < last;
        }
        if m in ns - {last} {
          var i :| 0 <= i < |ms| && ms[i] == m;
          assert front[i] == m;
        }
      }
      ListSize(front, ns - {last});
      assert last in ns && ns == (ns - {last}) + {last};
    }
  }

  /** The number of entries after a place in an ascending list. */
  lemma NewerCount(ms: seq<nat>, ns: set<nat>, i: nat)
    requires Lists(ms, ns) && i < |ms|
    ensures |set n | n in ns && n > ms[i]| == |ms| - 1 - i
  {
    var tail := ms[i + 1..];
    var after := set n | n in ns && n > ms[i];
    forall m
      ensures m in tail <==> m in after
    {
      if m in tail {
        var k :| 0 <= k < |tail| && tail[k] == m;
        assert ms[i + 1 + k] == m;
      }
      if m in after {
        var k :| 0 <= k < |ms| && ms[k] == m;
        assert k > i;
        assert tail[k - i - 1] == m;
      }
    }
    ListSize(tail, after);
  }

  lemma {:induction false} SomeList(ns: set<nat>) returns (ms: seq<nat>)
    ensures Lists(ms, ns)
  {
    if ns == {} {
      ms := [];
    } else {
      var top := MaxOf(ns);
      var front := SomeList(ns - {top});
      ms := front + [top];
      assert ns == (ns - {top}) + {top};
      forall i, j | 0 <= i < j < |ms|
        ensures ms[i] < ms[j]
      {
        assert ms[i] == front[i] && front[i] in front;
        if j < |front| {
          assert ms[j] == front[j];
        }
      }
    }
  }

  /** The messages of an ascending list from a place on are as many as remain there, and newer than the rest. */
  lemma NewestOfList(ms: seq<nat>, all: set<nat>, cut: nat, kept: set<nat>)
    requires Lists(ms, all) && cut <= |ms| && kept <= all
    requires forall i :: 0 <= i < |ms| ==> (ms[i] in kept <==> cut <= i)
    ensures |kept| == |ms| - cut && forall a, b :: a in kept && b in all - kept ==> b < a
  {
    var tail := ms[cut..];
    forall m
      ensures m in tail <==> m in kept
    {
      if m in tail {
        var k :| 0 <= k < |tail| && tail[k] == m;
        assert ms[cut + k] == m;
      }
      if m in kept {
        var k :| 0 <= k < |ms| && ms[k] == m;
        assert tail[k - cut] == m;
      }
    }
    ListSize(tail, kept);
    forall a, b | a in kept && b in all - kept
      ensures b < a
    {
      assert a in ms && b in ms;
      var i :| 0 <= i < |ms| && ms[i] == a;
      var j :| 0 <= j < |ms| && ms[j] == b;
      assert j < cut <= i;
    }
  }

  ghost function Kept(s: State, room: Room, p: Policy, now: int): set<nat> {
    set m | m in RoomLinks(s, room.num) && !Expires(s, room, p, now, m)
  }

  lemma KeptAt(s: State, room: Room, p: Policy, now: int, ms: seq<nat>, i: nat)
    requires p.mode == NUM_MSGS && !room.permanent && Lists(ms, RoomLinks(s, room.num)) && i < |ms|
    ensures ms[i] in Kept(s, room, p, now) <==> |ms| - 1 - i < p.value
  {
    var all := RoomLinks(s, room.num);
    assert ms[i] in ms;
    assert Link(room.num, ms[i]) in s.links;
    NewerCount(ms, all, i);
    assert Newer(s, room.num, ms[i]) == set n | n in all && n > ms[i];
  }

  /** A room with a count keeps exactly its newest messages: as many as the count, or all it has. */
  lemma KeepsNewest(s: State, room: Room, config: Config, now: int)
    requires Effective(config, room).mode == NUM_MSGS && Effective(config, room).value >= 0 && !room.permanent
    ensures var value := Effective(config, room).value;
            var kept := Kept(s, room, Effective(config, room), now);
            && |kept| == (if |RoomLinks(s, room.num)| < value then |RoomLinks(s, room.num)| else value)
            && forall a, b :: a in kept && b in RoomLinks(s, room.num) - kept ==> b < a
  {
    hide Effective, Lists, RoomLinks, Expires;
    var p := Effective(config, room);
    var all := RoomLinks(s, room.num);
    var ms := SomeList(all);
    ListSize(ms, all);
    var cut := if |ms| < p.value then 0 else |ms| - p.value;
    forall i | 0 <= i < |ms|
      ensures ms[i] in Kept(s, room, p, now) <==> cut <= i
    {
      KeptAt(s, room, p, now, ms, i);
    }
    NewestOfList(ms, all, cut, Kept(s, room, p, now));
  }

  /** Permanent rooms and rooms kept by hand lose nothing. */
  lemma ManualLosesNothing(s: State, room: Room, config: Config, now: int)
    requires room.permanent || Effective(config, room).mode == MANUAL
    ensures ExpiredOf(s, room, config, now) == {}
  {
  }

  // ---- the sweep ----------------------------------------------------------

  method Least(ns: set<nat>) returns (m: nat)
    requires ns != {}
    ensures m in ns && forall n :: n in ns ==> m <= n
  {
    m :| m in ns;
    var left := ns - {m};
    while left != {}
      invariant m in ns && left <= ns && forall n :: n in ns ==> n in left || m <= n
      decreases left
    {
      var n :| n in left;
      left := left - {n};
      if n < m {
        m := n;
      }
    }
  }

  /** The messages of a room, oldest first. */
  method RoomMessages(store: Store, room: int) returns (ms: seq<nat>)
    ensures Lists(ms, RoomLinks(store.View(), room))
  {
    var left := set l | l in store.links && l.room == room :: l.msg;
    ghost var all := left;
    ms := [];
    while left != {}
      invariant left <= all && Ascending(ms)
      invariant forall m :: m in ms <==> m in all && m !in left
      invariant forall m, n :: m in ms && n in left ==> m < n
      decreases left
    {
      var m := Least(left);
      assert forall k :: 0 <= k < |ms| ==> ms[k] in ms;
      left := left - {m};
      ms := ms + [m];
    }
  }

  /** The messages of a room that its policy gives up. */
  method Doomed(store: Store, room: Room, p: Policy, now: int) returns (doomed: seq<nat>)
    requires !room.permanent && (p.mode == NUM_MSGS ==> p.value >= 0)
    ensures Ascending(doomed) && forall m :: m in doomed <==> Expires(store.View(), room, p, now, m)
  {
    ghost var s := store.View();
    var ms := RoomMessages(store, room.num);
    ghost var all := RoomLinks(s, room.num);
    assert forall m :: m in all <==> Link(room.num, m) in s.links;
    doomed := [];
    if p.mode == NUM_MSGS {
      if |ms| > p.value {
        doomed := ms[..|ms| - p.value];
      }
      CountedOut(s, room, p, now, ms, doomed);
    } else if p.mode == AGE {
      var cutoff := now - p.value * 86400;
      for i := 0 to |ms|
        invariant Ascending(doomed)
        invariant forall m :: m in doomed <==> m in ms[..i] && m in store.rows && 0 < store.rows[m].msgtime < cutoff
      {
        var m := ms[i];
        assert ms[..i + 1] == ms[..i] + [m];
        if m in store.rows && store.rows[m].msgtime > 0 && store.rows[m].msgtime < cutoff {
          assert forall k :: 0 <= k < |doomed| ==> doomed[k] in doomed;
          doomed := doomed + [m];
        }
      }
      assert ms[..|ms|] == ms;
    }
  }

  lemma CountedOut(s: State, room: Room, p: Policy, now: int, ms: seq<nat>, doomed: seq<nat>)
    requires !room.permanent && p.mode == NUM_MSGS && p.value >= 0 && Lists(ms, RoomLinks(s, room.num))
    requires doomed == if |ms| > p.value then ms[..|ms| - p.value] else []
    ensures Ascending(doomed) && forall m :: m in doomed <==> Expires(s, room, p, now, m)
  {
    var all := RoomLinks(s, room.num);
    forall m
      ensures m in doomed <==> Expires(s, room, p, now, m)
    {
      assert m in all <==> Link(room.num, m) in s.links;
      if m in ms {
        var i :| 0 <= i < |ms| && ms[i] == m;
        NewerCount(ms, all, i);
        assert Newer(s, room.num, m) == set n | n in all && n > ms[i];
        if i < |doomed| {
          assert doomed[i] == m;
        }
        if m in doomed {
          var k :| 0 <= k < |doomed| && doomed[k] == m;
          assert ms[k] == m;
          assert k == i;
        }
      }
    }
  }

  ghost function LinksOf(room: int, ms: seq<nat>): set<Link> {
    set m | m in ms :: Link(room, m)
  }

  /** Every link removed has left a tombstone with a fresh number and the euid of its message. */
  ghost predicate Mourned(before: State, after: State, gone: set<Link>) {
    && before.tombs <= after.tombs
    && forall l :: l in gone ==> exists t :: t in after.tombs && t.room == l.room && t.msg == l.msg && t.seqNo >= before.next && t.euid == EuidOf(before, l.msg)
  }

  lemma MournMore(before: State, after: State, gone: set<Link>, room: int, m: nat)
    requires Mourned(before, after, gone) && before.rows == after.rows && before.next <= after.next
    ensures Mourned(before, Unlinked(after, room, m), gone + {Link(room, m)})
  {
    var s := Unlinked(after, room, m);
    assert Tomb(room, after.next, EuidOf(after, m), m) in s.tombs;
    forall l | l in gone + {Link(room, m)}
      ensures exists t :: t in s.tombs && t.room == l.room && t.msg == l.msg && t.seqNo >= before.next && t.euid == EuidOf(before, l.msg)
    {
      if l in gone {
        var t :| t in after.tombs && t.room == l.room && t.msg == l.msg && t.seqNo >= before.next && t.euid == EuidOf(before, l.msg);
        assert t in s.tombs;
      }
    }
  }

  /** What a sweep has done so far: exactly these links are gone, each mourned, and no row is. */
  ghost predicate SweptTo(before: State, after: State, gone: set<Link>) {
    && Valid(after)
    && after.links == before.links - gone
    && after.rows == before.rows
    && before.next <= after.next
    && Mourned(before, after, gone)
  }

  lemma SweepOne(before: State, after: State, gone: set<Link>, room: int, m: nat)
    requires SweptTo(before, after, gone)
    ensures SweptTo(before, Unlinked(after, room, m), gone + {Link(room, m)})
  {
    MournMore(before, after, gone, room, m);
    UnlinkedValid(after, room, m);
  }

  /** Unlink the doomed messages of one room. */
  method SweepRoom(store: Store, room: int, doomed: seq<nat>, ghost before: State, ghost gone: set<Link>)
      returns (count: nat, unlinked: seq<nat>)
    requires Ascending(doomed) && SweptTo(before, store.View(), gone)
    requires forall m :: m in doomed ==> Link(room, m) in store.links
    modifies store
    ensures SweptTo(before, store.View(), gone + LinksOf(room, doomed))
    ensures count == |doomed| && unlinked == doomed
  {
    hide SweptTo, Valid;
    count, unlinked := 0, [];
    assert gone + LinksOf(room, doomed[..0]) == gone;
    for i := 0 to |doomed|
      invariant count == i && unlinked == doomed[..i]
      invariant SweptTo(before, store.View(), gone + LinksOf(room, doomed[..i]))
      invariant forall k :: i <= k < |doomed| ==> Link(room, doomed[k]) in store.links
    {
      var m := doomed[i];
      SweepOne(before, store.View(), gone + LinksOf(room, doomed[..i]), room, m);
      assert doomed[..i + 1] == doomed[..i] + [m];
      assert gone + LinksOf(room, doomed[..i + 1]) == (gone + LinksOf(room, doomed[..i])) + {Link(room, m)};
      assert forall k :: i < k < |doomed| ==> doomed[k] != m;
      var ok := store.DeleteMessage(room, m);
      count := count + 1;
      unlinked := unlinked + [m];
    }
    assert doomed[..|doomed|] == doomed;
  }

  ghost predicate StillLinked(s: State, m: nat) {
    exists l :: l in s.links && l.msg == m
  }

  /** The rows of messages unlinked by the pass go, unless something still links to them. */
  method RemoveRows(store: Store, unlinked: seq<nat>)
    modifies store`rows
    ensures forall m :: m in store.rows <==> m in old(store.rows) && !(m in unlinked && !StillLinked(old(store.View()), m))
    ensures forall m :: m in store.rows ==> store.rows[m] == old(store.rows)[m]
  {
    ghost var s := store.View();
    for i := 0 to |unlinked|
      invariant forall m :: m in store.rows <==> m in old(store.rows) && !(m in unlinked[..i] && !StillLinked(s, m))
      invariant forall m :: m in store.rows ==> store.rows[m] == old(store.rows)[m]
    {
      var m := unlinked[i];
      assert unlinked[..i + 1] == unlinked[..i] + [m];
      var linked := exists l :: l in store.links && l.msg == m;
      assert linked <==> StillLinked(s, m);
      if !linked {
        store.rows := store.rows - {m};
      }
    }
    assert unlinked[..|unlinked|] == unlinked;
  }

  lemma ExpiredStep(s: State, rooms: seq<Room>, i: nat, config: Config, now: int)
    requires DistinctRooms(rooms) && i < |rooms|
    ensures Expired(s, rooms[..i + 1], config, now) == Expired(s, rooms[..i], config, now) + ExpiredOf(s, rooms[i], config, now)
    ensures Expired(s, rooms[..i], config, now) !! ExpiredOf(s, rooms[i], config, now)
    ensures forall l :: l in Expired(s, rooms[..i], config, now) ==> l.room != rooms[i].num
  {
    hide Expires, Effective;
    var few, more := rooms[..i], rooms[..i + 1];
    forall l
      ensures l in Expired(s, rooms[..i + 1], config, now) <==>
              l in Expired(s, rooms[..i], config, now) || l in ExpiredOf(s, rooms[i], config, now)
    {
      if k :| 0 <= k < |more| && l in s.links && l in ExpiredOf(s, more[k], config, now) {
        assert k < i ==> few[k] == more[k];
      }
      if k :| 0 <= k < |few| && l in s.links && l in ExpiredOf(s, few[k], config, now) {
        assert more[k] == few[k];
      }
      if l in ExpiredOf(s, rooms[i], config, now) {
        assert more[i] == rooms[i];
      }
    }
  }

  /** The links of one room, as a sweep of other rooms leaves them, expire as they did before. */
  lemma OthersUntouched(before: State, after: State, gone: set<Link>, room: Room, p: Policy, now: int)
    requires SweptTo(before, after, gone) && forall l :: l in gone ==> l.room != room.num
    ensures forall m :: Expires(after, room, p, now, m) <==> Expires(before, room, p, now, m)
  {
    hide Valid;
    assert forall m :: m in RoomLinks(after, room.num) <==> Link(room.num, m) in after.links;
    assert forall m :: m in RoomLinks(before, room.num) <==> Link(room.num, m) in before.links;
    assert RoomLinks(after, room.num) == RoomLinks(before, room.num);
    forall m
      ensures Newer(after, room.num, m) == Newer(before, room.num, m)
    {
    }
  }

  lemma LinksAreExpired(s: State, room: Room, config: Config, now: int, doomed: seq<nat>)
    requires forall m :: m in doomed <==> Expires(s, room, Effective(config, room), now, m)
    ensures LinksOf(room.num, doomed) == ExpiredOf(s, room, config, now)
  {
    hide Effective;
    forall l
      ensures l in LinksOf(room.num, doomed) <==> l in ExpiredOf(s, room, config, now)
    {
      if l in ExpiredOf(s, room, config, now) {
        assert l.msg in doomed && l == Link(room.num, l.msg);
      }
    }
  }

  lemma {:induction false} CountLinks(room: int, ms: seq<nat>)
    requires Ascending(ms)
    ensures |LinksOf(room, ms)| == |ms|
  {
    if ms == [] {
      assert LinksOf(room, ms) == {};
    } else {
      var front, last := ms[..|ms| - 1], ms[|ms| - 1];
      CountLinks(room, front);
      assert last !in front;
      assert ms == front + [last];
      assert LinksOf(room, ms) == LinksOf(room, front) + {Link(room, last)};
    }
  }

  /** The sweep: exactly the links that the policies give up go, and exactly the rows that this leaves
      without a link. */
  method RunExpiry(store: Store, rooms: seq<Room>, config: Config, now: int) returns (purged: nat)
    requires Valid(store.View()) && Settable(config) && DistinctRooms(rooms)
    modifies store
    ensures var s, s' := old(store.View()), store.View();
            && s'.links == s.links - Expired(s, rooms, config, now)
            && purged == |Expired(s, rooms, config, now)|
            && (forall m :: m in s'.rows <==> m in s.rows && ((forall l :: l in Expired(s, rooms, config, now) ==> l.msg != m) || StillLinked(s', m)))
            && (forall m :: m in s'.rows ==> s'.rows[m] == s.rows[m])
            && Mourned(s, s', Expired(s, rooms, config, now))
            && Valid(s')
  {
    hide SweptTo, Valid, Expires, Effective, Settable, Mourned;
    ghost var s := store.View();
    purged := 0;
    var unlinked: seq<nat> := [];
    SweepStarts(s);
    assert Expired(s, rooms[..0], config, now) == {};
    for i := 0 to |rooms|
      invariant SweptTo(s, store.View(), Expired(s, rooms[..i], config, now))
      invariant purged == |Expired(s, rooms[..i], config, now)|
      invariant forall m :: m in unlinked <==> exists l :: l in Expired(s, rooms[..i], config, now) && l.msg == m
    {
      var room := rooms[i];
      ghost var gone := Expired(s, rooms[..i], config, now);
      ExpiredStep(s, rooms, i, config, now);
      var p := Effective(config, room);
      if room.permanent || p.mode == MANUAL || p.mode == NEXT_LEVEL {
        ManualLosesNothing(s, room, config, now);
        assert Expired(s, rooms[..i + 1], config, now) == gone;
        continue;
      }
      OthersUntouched(s, store.View(), gone, room, p, now);
      var doomed := Doomed(store, room, p, now);
      LinksAreExpired(s, room, config, now, doomed);
      CountLinks(room.num, doomed);
      DoomedAreLinked(store.View(), room, p, now, doomed);
      var count, dropped := SweepRoom(store, room.num, doomed, s, gone);
      UnlinkedGrow(unlinked, gone, room.num, doomed);
      purged := purged + count;
      unlinked := unlinked + dropped;
    }
    assert rooms[..|rooms|] == rooms;
    ghost var s1 := store.View();
    RemoveRows(store, unlinked);
    SweepEnds(s, s1, store.View(), Expired(s, rooms, config, now), unlinked);
  }

  /** What the pass leaves in a room it sweeps is what the policy keeps, and in any other room everything:
      a count leaves exactly that many of the newest messages, or all there are, an age all but the dated
      messages that are older than so many days, and permanent rooms and rooms kept by hand are as they were. */
  lemma PassLeaves(s: State, s': State, rooms: seq<Room>, config: Config, now: int, k: nat)
    requires DistinctRooms(rooms) && k < |rooms| && Settable(config) && s'.links == s.links - Expired(s, rooms, config, now)
    ensures var room, p := rooms[k], Effective(config, rooms[k]);
            var before, after := RoomLinks(s, room.num), RoomLinks(s', room.num);
            && after == Kept(s, room, p, now)
            && (room.permanent || p.mode == MANUAL ==> after == before)
            && (p.mode == NUM_MSGS && !room.permanent ==>
                && |after| == (if |before| < p.value then |before| else p.value)
                && forall a, b :: a in after && b in before - after ==> b < a)
            && (p.mode == AGE && !room.permanent ==>
                forall m :: m in after <==> m in before && !(m in s.rows && 0 < s.rows[m].msgtime < now - p.value * 86400))
  {
    hide Effective, Expires, Settable, ReadPolicy;
    var room, p := rooms[k], Effective(config, rooms[k]);
    forall m
      ensures m in RoomLinks(s', room.num) <==> m in Kept(s, room, p, now)
    {
      ExpiredHere(s, rooms, config, now, k, m);
    }
    assert RoomLinks(s', room.num) == Kept(s, room, p, now);
    if room.permanent || p.mode == MANUAL {
      NothingGoes(s, room, p, now);
    }
    if p.mode == NUM_MSGS && !room.permanent {
      KeepsNewest(s, room, config, now);
    }
    if p.mode == AGE && !room.permanent {
      KeepsYoung(s, room, p, now);
    }
  }

  lemma KeepsYoung(s: State, room: Room, p: Policy, now: int)
    requires p.mode == AGE && !room.permanent
    ensures forall m :: m in Kept(s, room, p, now) <==>
              m in RoomLinks(s, room.num) && !(m in s.rows && 0 < s.rows[m].msgtime < now - p.value * 86400)
  {
  }

  lemma LinkedMessages(s: State, room: int)
    ensures forall m :: m in RoomLinks(s, room) <==> Link(room, m) in s.links
  {
  }

  /** A message that a pass has left in a room is left by the next one too, the clock being the same. */
  lemma StaysKept(s: State, s': State, room: Room, p: Policy, now: int, m: nat)
    requires RoomLinks(s', room.num) == Kept(s, room, p, now) && (p.mode == NUM_MSGS ==> p.value >= 1)
    requires p.mode == NUM_MSGS && !room.permanent ==> |RoomLinks(s', room.num)| <= p.value
    requires forall n :: n in s'.rows ==> n in s.rows && s'.rows[n] == s.rows[n]
    ensures !Expires(s', room, p, now, m)
  {
    LinkedMessages(s, room.num);
    LinkedMessages(s', room.num);
    var after := RoomLinks(s', room.num);
    if m in after && p.mode == NUM_MSGS && !room.permanent {
      assert Newer(s', room.num, m) <= after - {m};
      Smaller(Newer(s', room.num, m), after - {m});
    }
  }

  lemma Smaller(a: set<nat>, b: set<nat>)
    requires a <= b
    ensures |a| <= |b|
  {
    assert b == a + (b - a);
  }

  /** Nothing is left to expire after a pass: a second one at the same time removes no link. */
  lemma SecondPassFindsNothing(s: State, s': State, rooms: seq<Room>, config: Config, now: int)
    requires DistinctRooms(rooms) && Settable(config) && s'.links == s.links - Expired(s, rooms, config, now)
    requires forall n :: n in s'.rows ==> n in s.rows && s'.rows[n] == s.rows[n]
    ensures Expired(s', rooms, config, now) == {}
  {
    hide Effective, Expires, Settable, ReadPolicy;
    forall k, l | 0 <= k < |rooms|
      ensures l !in ExpiredOf(s', rooms[k], config, now)
    {
      var p := Effective(config, rooms[k]);
      PassLeaves(s, s', rooms, config, now, k);
      assert p.mode == NUM_MSGS ==> p.value >= 1 by {
        assert Settable(config);
      }
      StaysKept(s, s', rooms[k], p, now, l.msg);
    }
  }

  /** A room that is not swept keeps all its messages. */
  lemma OthersKeepAll(s: State, s': State, rooms: seq<Room>, config: Config, now: int, num: int)
    requires (forall i :: 0 <= i < |rooms| ==> rooms[i].num != num) && s'.links == s.links - Expired(s, rooms, config, now)
    ensures RoomLinks(s', num) == RoomLinks(s, num)
  {
    hide Expires, Effective;
    forall m
      ensures Link(num, m) !in Expired(s, rooms, config, now)
    {
    }
  }

  lemma ExpiredHere(s: State, rooms: seq<Room>, config: Config, now: int, k: nat, m: nat)
    requires DistinctRooms(rooms) && k < |rooms|
    ensures Link(rooms[k].num, m) in Expired(s, rooms, config, now) <==>
            Link(rooms[k].num, m) in s.links && Expires(s, rooms[k], Effective(config, rooms[k]), now, m)
  {
    hide Effective, Expires;
    var l := Link(rooms[k].num, m);
    if l in s.links && Expires(s, rooms[k], Effective(config, rooms[k]), now, m) {
      assert l in ExpiredOf(s, rooms[k], config, now);
    }
    if i :| 0 <= i < |rooms| && l in s.links && l in ExpiredOf(s, rooms[i], config, now) {
      assert rooms[i].num == rooms[k].num;
      assert i == k;
    }
  }

  lemma NothingGoes(s: State, room: Room, p: Policy, now: int)
    requires room.permanent || p.mode == MANUAL
    ensures Kept(s, room, p, now) == RoomLinks(s, room.num)
  {
  }

  lemma SweepStarts(s: State)
    requires Valid(s)
    ensures SweptTo(s, s, {})
  {
  }

  lemma DoomedAreLinked(s: State, room: Room, p: Policy, now: int, doomed: seq<nat>)
    requires forall m :: m in doomed <==> Expires(s, room, p, now, m)
    ensures forall m :: m in doomed ==> Link(room.num, m) in s.links
  {
  }

  lemma UnlinkedGrow(unlinked: seq<nat>, gone: set<Link>, room: int, doomed: seq<nat>)
    requires forall m :: m in unlinked <==> exists l :: l in gone && l.msg == m
    ensures forall m :: m in unlinked + doomed <==> exists l :: l in gone + LinksOf(room, doomed) && l.msg == m
  {
    forall m
      ensures m in unlinked + doomed <==> exists l :: l in gone + LinksOf(room, doomed) && l.msg == m
    {
      if m in doomed {
        assert Link(room, m) in gone + LinksOf(room, doomed);
      }
      if m in unlinked {
        var l :| l in gone && l.msg == m;
        assert l in gone + LinksOf(room, doomed);
      }
    }
  }

  lemma SweepEnds(s: State, s1: State, s': State, gone: set<Link>, unlinked: seq<nat>)
    requires SweptTo(s, s1, gone) && s'.next == s1.next && s'.links == s1.links && s'.tombs == s1.tombs
    requires forall m :: m in unlinked <==> exists l :: l in gone && l.msg == m
    requires forall m :: m in s'.rows <==> m in s1.rows && !(m in unlinked && !StillLinked(s1, m))
    requires forall m :: m in s'.rows ==> s'.rows[m] == s1.rows[m]
    ensures s'.links == s.links - gone && Mourned(s, s', gone) && Valid(s')
    ensures forall m :: m in s'.rows <==> m in s.rows && ((forall l :: l in gone ==> l.msg != m) || StillLinked(s', m))
    ensures forall m :: m in s'.rows ==> s'.rows[m] == s.rows[m]
  {
    forall l | l in s'.links
      ensures l.msg in s'.rows
    {
      assert StillLinked(s1, l.msg);
    }
    forall m
      ensures StillLinked(s', m) <==> StillLinked(s1, m)
    {
    }
  }
}
