/** The room store of core/src/citadel_store.cpp. */
module RoomStore {
  import opened Text

  // A state machine: tables are maps and sets, and each store call is one atomic step. Message numbers and
  // tombstones draw on one sequence.

  datatype Row = Row(euid: string, msgtime: int)
  datatype Link = Link(room: int, msg: nat)
  datatype Tomb = Tomb(room: int, seqNo: nat, euid: string, msg: nat)

  /** `next` is what the sequence gives next. */
  datatype State = State(next: nat, rows: map<nat, Row>, links: set<Link>, tombs: set<Tomb>)

  ghost predicate Valid(s: State) {
    && s.next >= 1
    && (forall m :: m in s.rows ==> 1 <= m < s.next)
    && (forall l :: l in s.links ==> l.msg in s.rows)
    && (forall t :: t in s.tombs ==> 1 <= t.seqNo < s.next)
  }

  // ---- reading ------------------------------------------------------------

  ghost function MaxOf(ns: set<nat>): (m: nat)
    ensures forall n :: n in ns ==> n <= m
    ensures ns != {} ==> m in ns
    ensures ns == {} ==> m == 0
  {
    if ns == {} then 0
    else
      var n :| n in ns;
      var rest := MaxOf(ns - {n});
      assert ns == (ns - {n}) + {n};
      if n >= rest then n else rest
  }

  /** The message numbers and tombstone numbers of a room. */
  ghost function Numbers(s: State, room: int): set<nat> {
    (set l | l in s.links && l.room == room :: l.msg) + (set t | t in s.tombs && t.room == room :: t.seqNo)
  }

  /** The change token of a room. */
  ghost function Token(s: State, room: int): nat {
    MaxOf(Numbers(s, room))
  }

  function EuidOf(s: State, m: nat): string {
    if m in s.rows then s.rows[m].euid else ""
  }

  /** The messages of a room that carry an euid. */
  ghost function Holders(s: State, room: int, euid: string): set<nat> {
    set l | l in s.links && l.room == room && l.msg in s.rows && s.rows[l.msg].euid == euid :: l.msg
  }

  /** The message an euid stands for: the newest that carries it. */
  ghost function Find(s: State, room: int, euid: string): Option<nat> {
    if euid == "" || Holders(s, room, euid) == {} then None else Some(MaxOf(Holders(s, room, euid)))
  }

  /** A number after the token names this euid: a newer message, or a newer tombstone. */
  ghost predicate Changed(s: State, room: int, since: nat, euid: string) {
    || (exists l :: l in s.links && l.room == room && l.msg > since && l.msg in s.rows && s.rows[l.msg].euid == euid)
    || (exists t :: t in s.tombs && t.room == room && t.seqNo > since && t.euid == euid)
  }

  // ---- steps --------------------------------------------------------------

  function Inserted(s: State, row: Row, rooms: set<int>): State {
    State(s.next + 1, s.rows[s.next := row], s.links + (set r | r in rooms :: Link(r, s.next)), s.tombs)
  }

  /** The link goes, and a tombstone with a fresh number keeps the euid. */
  function Unlinked(s: State, room: int, m: nat): State {
    State(s.next + 1, s.rows, s.links - {Link(room, m)}, s.tombs + {Tomb(room, s.next, EuidOf(s, m), m)})
  }

  function Deleted(s: State, room: int, m: nat): State {
    if Link(room, m) in s.links then Unlinked(s, room, m) else s
  }

  ghost function Upserted(s: State, room: int, row: Row): State {
    if row.euid == "" then s
    else
      var held := Find(s, room, row.euid);
      var s1 := Inserted(s, row, {room});
      if held.Some? then Deleted(s1, room, held.value) else s1
  }

  function Linked(s: State, room: int, m: nat): State {
    s.(links := s.links + {Link(room, m)})
  }

  function Moved(s: State, from: int, target: int, m: nat, isCopy: bool): State {
    if Link(from, m) !in s.links || from == target then s
    else if isCopy then Linked(s, target, m)
    else Unlinked(Linked(s, target, m), from, m)
  }

  /** A row that nothing links to goes. */
  function Dropped(s: State, m: nat): State {
    if exists l :: l in s.links && l.msg == m then s else s.(rows := s.rows - {m})
  }

  datatype Step =
    | Insert(row: Row, rooms: set<int>)
    | Upsert(room: int, row: Row)
    | Delete(room: int, msg: nat)
    | Move(from: int, target: int, msg: nat, isCopy: bool)
    | Drop(msg: nat)

  ghost function Apply(s: State, step: Step): State {
    match step
    case Insert(row, rooms) => Inserted(s, row, rooms)
    case Upsert(room, row) => Upserted(s, room, row)
    case Delete(room, m) => Deleted(s, room, m)
    case Move(from, target, m, isCopy) => Moved(s, from, target, m, isCopy)
    case Drop(m) => Dropped(s, m)
  }

  /** The one step a room's token does not announce: an old message linked into it from elsewhere. */
  predicate MovesInto(step: Step, room: int) {
    step.Move? && step.target == room && step.from != room
  }

  // ---- the invariant of the tables ----------------------------------------

  lemma InsertedValid(s: State, row: Row, rooms: set<int>)
    requires Valid(s)
    ensures Valid(Inserted(s, row, rooms))
  {
  }

  lemma UnlinkedValid(s: State, room: int, m: nat)
    requires Valid(s)
    ensures Valid(Unlinked(s, room, m))
  {
  }

  /** Every step keeps the tables in order. */
  lemma StepValid(s: State, step: Step)
    requires Valid(s)
    ensures Valid(Apply(s, step)) && s.next <= Apply(s, step).next
  {
    hide Valid, Find, Inserted, Unlinked;
    match step {
      case Insert(row, rooms) =>
        InsertedValid(s, row, rooms);
        Grows(s, row, rooms, 0, 0);
      case Upsert(room, row) =>
        InsertedValid(s, row, {room});
        Grows(s, row, {room}, 0, 0);
        var held := Find(s, room, row.euid);
        if held.Some? {
          UnlinkedValid(Inserted(s, row, {room}), room, held.value);
          Grows(Inserted(s, row, {room}), row, {}, room, held.value);
        }
      case Delete(room, m) =>
        UnlinkedValid(s, room, m);
        Grows(s, Row("", 0), {}, room, m);
      case Move(from, target, m, isCopy) =>
        if Link(from, m) in s.links {
          LinkedValid(s, from, target, m);
          UnlinkedValid(Linked(s, target, m), from, m);
          Grows(Linked(s, target, m), Row("", 0), {}, from, m);
        }
      case Drop(m) => DroppedValid(s, m);
    }
  }

  lemma Grows(s: State, row: Row, rooms: set<int>, room: int, m: nat)
    ensures Inserted(s, row, rooms).next == s.next + 1 && Unlinked(s, room, m).next == s.next + 1
  {
  }

  lemma LinkedValid(s: State, from: int, target: int, m: nat)
    requires Valid(s) && Link(from, m) in s.links
    ensures Valid(Linked(s, target, m))
  {
  }

  lemma DroppedValid(s: State, m: nat)
    requires Valid(s)
    ensures Valid(Dropped(s, m))
  {
  }

  // ---- the token ----------------------------------------------------------

  lemma TokenBelowNext(s: State, room: int)
    requires Valid(s)
    ensures Token(s, room) < s.next
  {
    var ns := Numbers(s, room);
    if ns != {} {
      assert MaxOf(ns) in ns;
    }
  }

  lemma InsertToken(s: State, row: Row, rooms: set<int>, room: int)
    requires Valid(s)
    ensures room in rooms ==> Token(Inserted(s, row, rooms), room) == s.next
    ensures room !in rooms ==> Numbers(Inserted(s, row, rooms), room) == Numbers(s, room)
  {
    var s' := Inserted(s, row, rooms);
    if room in rooms {
      assert Link(room, s.next) in s'.links;
      assert s.next in Numbers(s', room);
      InsertedValid(s, row, rooms);
      TokenBelowNext(s', room);
    } else {
      assert forall n :: n in Numbers(s', room) <==> n in Numbers(s, room);
    }
  }

  lemma UnlinkToken(s: State, room: int, m: nat, other: int)
    requires Valid(s)
    ensures Token(Unlinked(s, room, m), room) == s.next
    ensures other != room ==> Numbers(Unlinked(s, room, m), other) == Numbers(s, other)
  {
    var s' := Unlinked(s, room, m);
    assert Tomb(room, s.next, EuidOf(s, m), m) in s'.tombs;
    assert s.next in Numbers(s', room);
    UnlinkedValid(s, room, m);
    TokenBelowNext(s', room);
    if other != room {
      assert forall n :: n in Numbers(s', other) <==> n in Numbers(s, other);
    }
  }

  lemma LinkToken(s: State, target: int, m: nat, room: int)
    ensures room != target ==> Numbers(Linked(s, target, m), room) == Numbers(s, room)
    ensures Token(s, room) <= Token(Linked(s, target, m), room)
  {
    var s' := Linked(s, target, m);
    if room != target {
      assert forall n :: n in Numbers(s', room) <==> n in Numbers(s, room);
    }
    assert forall n :: n in Numbers(s, room) ==> n in Numbers(s', room);
  }

  ghost function RoomLinks(s: State, room: int): set<nat> {
    set l | l in s.links && l.room == room :: l.msg
  }

  /** No step lowers a room's token, and every step that changes what the room holds raises it,
      linking an old message in from elsewhere aside. */
  lemma TokenRises(s: State, step: Step, room: int)
    requires Valid(s)
    ensures Token(s, room) <= Token(Apply(s, step), room)
    ensures !MovesInto(step, room) && RoomLinks(Apply(s, step), room) != RoomLinks(s, room) ==>
              Token(s, room) < Token(Apply(s, step), room)
  {
    hide Token, Valid, Inserted, Unlinked, Linked, Find, Numbers, RoomLinks;
    TokenBelowNext(s, room);
    match step {
      case Insert(row, rooms) =>
        InsertToken(s, row, rooms, room);
        InsertLinks(s, row, rooms, room);
        SameNumbers(s, Inserted(s, row, rooms), room);
      case Upsert(r, row) =>
        if row.euid != "" {
          var s1, held := Inserted(s, row, {r}), Find(s, r, row.euid);
          InsertedValid(s, row, {r});
          InsertToken(s, row, {r}, room);
          InsertLinks(s, row, {r}, room);
          SameNumbers(s, s1, room);
          Grows(s, row, {r}, 0, 0);
          if held.Some? && Link(r, held.value) in s1.links {
            UnlinkToken(s1, r, held.value, room);
            UnlinkLinks(s1, r, held.value, room);
            SameNumbers(s1, Unlinked(s1, r, held.value), room);
          }
        }
      case Delete(r, m) =>
        UnlinkToken(s, r, m, room);
        UnlinkLinks(s, r, m, room);
        SameNumbers(s, Unlinked(s, r, m), room);
      case Move(from, target, m, isCopy) =>
        if Link(from, m) in s.links && from != target {
          var s1 := Linked(s, target, m);
          LinkedValid(s, from, target, m);
          LinkToken(s, target, m, room);
          LinkLinks(s, target, m, room);
          UnlinkToken(s1, from, m, room);
          UnlinkLinks(s1, from, m, room);
          SameNumbers(s1, Unlinked(s1, from, m), room);
          assert s1.next == s.next by {
            NextOfLinked(s, target, m);
          }
        }
      case Drop(m) => DropLinks(s, m, room);
    }
  }

  lemma NextOfLinked(s: State, target: int, m: nat)
    ensures Linked(s, target, m).next == s.next
  {
  }

  lemma SameNumbers(s: State, s': State, room: int)
    ensures Numbers(s', room) == Numbers(s, room) ==> Token(s', room) == Token(s, room)
  {
  }

  lemma InsertLinks(s: State, row: Row, rooms: set<int>, room: int)
    ensures room !in rooms ==> RoomLinks(Inserted(s, row, rooms), room) == RoomLinks(s, room)
  {
    if room !in rooms {
      assert forall n :: n in RoomLinks(Inserted(s, row, rooms), room) <==> n in RoomLinks(s, room);
    }
  }

  lemma UnlinkLinks(s: State, room: int, m: nat, other: int)
    ensures other != room ==> RoomLinks(Unlinked(s, room, m), other) == RoomLinks(s, other)
  {
    if other != room {
      assert forall n :: n in RoomLinks(Unlinked(s, room, m), other) <==> n in RoomLinks(s, other);
    }
  }

  lemma LinkLinks(s: State, target: int, m: nat, room: int)
    ensures room != target ==> RoomLinks(Linked(s, target, m), room) == RoomLinks(s, room)
  {
    if room != target {
      assert forall n :: n in RoomLinks(Linked(s, target, m), room) <==> n in RoomLinks(s, room);
    }
  }

  lemma DropLinks(s: State, m: nat, room: int)
    ensures RoomLinks(Dropped(s, m), room) == RoomLinks(s, room) && Token(Dropped(s, m), room) == Token(s, room)
  {
  }

  // ---- mirrors ------------------------------------------------------------

  /** A client's copy of a room: the token of its last synchronization and the message of each euid. */
  datatype Copy = Copy(token: nat, messages: map<string, nat>)

  function Lookup(m: map<string, nat>, euid: string): Option<nat> {
    if euid in m then Some(m[euid]) else None
  }

  /** The copy is right about every euid that has not changed since its token. */
  ghost predicate Current(s: State, room: int, c: Copy) {
    c.token < s.next && forall e :: !Changed(s, room, c.token, e) ==> Lookup(c.messages, e) == Find(s, room, e)
  }

  ghost predicate Mirrors(s: State, room: int, c: Copy) {
    forall e :: Lookup(c.messages, e) == Find(s, room, e)
  }

  /** A step that leaves what an euid stands for alone, or else makes it changed, keeps copies current. */
  ghost predicate Announced(s: State, s': State, room: int, token: nat) {
    && s.next <= s'.next
    && (forall e :: Changed(s, room, token, e) ==> Changed(s', room, token, e))
    && (forall e :: !Changed(s', room, token, e) ==> Find(s', room, e) == Find(s, room, e))
  }

  lemma AnnouncedKeeps(s: State, s': State, room: int, c: Copy)
    requires Current(s, room, c) && Announced(s, s', room, c.token)
    ensures Current(s', room, c)
  {
    hide Changed, Find;
  }

  lemma AnnouncedChain(s: State, s1: State, s2: State, room: int, token: nat)
    requires Announced(s, s1, room, token) && Announced(s1, s2, room, token)
    ensures Announced(s, s2, room, token)
  {
    hide Changed, Find;
  }

  lemma SameHolders(s: State, s': State, room: int, e: string)
    requires Holders(s', room, e) == Holders(s, room, e)
    ensures Find(s', room, e) == Find(s, room, e)
  {
  }

  lemma InsertAnnounced(s: State, row: Row, rooms: set<int>, room: int, token: nat)
    requires Valid(s) && token < s.next
    ensures Announced(s, Inserted(s, row, rooms), room, token)
  {
    hide Find;
    var s' := Inserted(s, row, rooms);
    forall e | Changed(s, room, token, e)
      ensures Changed(s', room, token, e)
    {
      if l :| l in s.links && l.room == room && l.msg > token && l.msg in s.rows && s.rows[l.msg].euid == e {
        assert l in s'.links && s'.rows[l.msg] == s.rows[l.msg];
      }
    }
    forall e | !Changed(s', room, token, e)
      ensures Find(s', room, e) == Find(s, room, e)
    {
      if room in rooms {
        assert Link(room, s.next) in s'.links;
        assert row.euid != e;
      }
      forall m
        ensures m in Holders(s', room, e) <==> m in Holders(s, room, e)
      {
        if m in Holders(s, room, e) {
          assert Link(room, m) in s.links;
          assert Link(room, m) in s'.links;
        }
        if m in Holders(s', room, e) {
          assert Link(room, m) in s'.links;
        }
      }
      SameHolders(s, s', room, e);
    }
  }

  lemma HolderIs(s: State, room: int, e: string, m: nat)
    ensures m in Holders(s, room, e) <==> Link(room, m) in s.links && m in s.rows && s.rows[m].euid == e
  {
    if Link(room, m) in s.links && m in s.rows && s.rows[m].euid == e {
      assert Link(room, m).msg in Holders(s, room, e);
    }
  }

  lemma UnlinkAnnounced(s: State, r: int, m: nat, room: int, token: nat)
    requires Valid(s) && token < s.next && Link(r, m) in s.links
    ensures Announced(s, Unlinked(s, r, m), room, token)
  {
    hide Find, Holders;
    var s' := Unlinked(s, r, m);
    var tomb := Tomb(r, s.next, EuidOf(s, m), m);
    assert tomb in s'.tombs;
    forall e | Changed(s, room, token, e)
      ensures Changed(s', room, token, e)
    {
      if l :| l in s.links && l.room == room && l.msg > token && l.msg in s.rows && s.rows[l.msg].euid == e {
        assert l in s'.links || (l == Link(r, m) && tomb.euid == e);
      } else {
        var t :| t in s.tombs && t.room == room && t.seqNo > token && t.euid == e;
        assert t in s'.tombs;
      }
    }
    forall e | !Changed(s', room, token, e)
      ensures Find(s', room, e) == Find(s, room, e)
    {
      assert r == room ==> tomb.euid != e;
      forall n
        ensures n in Holders(s', room, e) <==> n in Holders(s, room, e)
      {
        HolderIs(s, room, e, n);
        HolderIs(s', room, e, n);
      }
      SameHolders(s, s', room, e);
    }
  }

  lemma LinkAnnounced(s: State, target: int, m: nat, room: int, token: nat)
    requires room != target
    ensures Announced(s, Linked(s, target, m), room, token)
  {
    hide Find, Holders;
    var s' := Linked(s, target, m);
    forall e
      ensures Changed(s, room, token, e) <==> Changed(s', room, token, e)
      ensures Find(s', room, e) == Find(s, room, e)
    {
      forall n
        ensures n in Holders(s', room, e) <==> n in Holders(s, room, e)
      {
        HolderIs(s, room, e, n);
        HolderIs(s', room, e, n);
      }
      SameHolders(s, s', room, e);
    }
  }

  lemma DropAnnounced(s: State, m: nat, room: int, token: nat)
    requires Valid(s)
    ensures Announced(s, Dropped(s, m), room, token)
  {
    hide Find, Holders;
    var s' := Dropped(s, m);
    forall e
      ensures Changed(s, room, token, e) <==> Changed(s', room, token, e)
      ensures Find(s', room, e) == Find(s, room, e)
    {
      forall n
        ensures n in Holders(s', room, e) <==> n in Holders(s, room, e)
      {
        HolderIs(s, room, e, n);
        HolderIs(s', room, e, n);
      }
      SameHolders(s, s', room, e);
    }
  }

  lemma NothingAnnounced(s: State, room: int, token: nat)
    ensures Announced(s, s, room, token)
  {
  }

  /** Every step but a move into the room announces what it changes there. */
  lemma StepAnnounced(s: State, step: Step, room: int, token: nat)
    requires Valid(s) && token < s.next && !MovesInto(step, room)
    ensures Announced(s, Apply(s, step), room, token)
  {
    hide Announced, Valid, Inserted, Unlinked, Linked, Dropped, Find;
    NothingAnnounced(s, room, token);
    match step {
      case Insert(row, rooms) => InsertAnnounced(s, row, rooms, room, token);
      case Upsert(r, row) =>
        if row.euid != "" {
          var s1, held := Inserted(s, row, {r}), Find(s, r, row.euid);
          InsertAnnounced(s, row, {r}, room, token);
          InsertedValid(s, row, {r});
          Grows(s, row, {r}, 0, 0);
          if held.Some? && Link(r, held.value) in s1.links {
            UnlinkAnnounced(s1, r, held.value, room, token);
            AnnouncedChain(s, s1, Unlinked(s1, r, held.value), room, token);
          }
        }
      case Delete(r, m) =>
        if Link(r, m) in s.links {
          UnlinkAnnounced(s, r, m, room, token);
        }
      case Move(from, target, m, isCopy) =>
        if Link(from, m) in s.links && from != target {
          var s1 := Linked(s, target, m);
          LinkAnnounced(s, target, m, room, token);
          LinkedValid(s, from, target, m);
          NextOfLinked(s, target, m);
          StillLinked(s, from, target, m);
          UnlinkAnnounced(s1, from, m, room, token);
          AnnouncedChain(s, s1, Unlinked(s1, from, m), room, token);
        }
      case Drop(m) => DropAnnounced(s, m, room, token);
    }
  }

  lemma StillLinked(s: State, from: int, target: int, m: nat)
    requires Link(from, m) in s.links
    ensures Link(from, m) in Linked(s, target, m).links
  {
  }

  // ---- synchronizing ------------------------------------------------------

  /** What a client does: take the new token, and resolve every changed euid anew. */
  ghost predicate Synchronized(s: State, room: int, c: Copy, c': Copy) {
    && c'.token == Token(s, room)
    && forall e :: Lookup(c'.messages, e) == if Changed(s, room, c.token, e) then Find(s, room, e) else Lookup(c.messages, e)
  }

  /** After a synchronization a current copy is exact, and current again. */
  lemma SyncIsExact(s: State, room: int, c: Copy, c': Copy)
    requires Valid(s) && Current(s, room, c) && Synchronized(s, room, c, c')
    ensures Mirrors(s, room, c') && Current(s, room, c')
  {
    hide Changed, Find, Token, Valid;
    TokenBelowNext(s, room);
  }

  datatype Event = Change(step: Step) | Sync(copy: Copy)

  /** A run of steps and synchronizations, none of which moves a message into the room. */
  ghost predicate Happens(s: State, c: Copy, events: seq<Event>, room: int, s': State, c': Copy)
    decreases |events|
  {
    if events == [] then s' == s && c' == c
    else
      match events[0]
      case Change(step) => !MovesInto(step, room) && Happens(Apply(s, step), c, events[1..], room, s', c')
      case Sync(copy) => Synchronized(s, room, c, copy) && Happens(s, copy, events[1..], room, s', c')
  }

  /** Throughout a run, a copy that starts current stays current, and is exact after each synchronization. */
  lemma {:induction false} RunKeepsCurrent(s: State, c: Copy, events: seq<Event>, room: int, s': State, c': Copy)
    requires Valid(s) && Current(s, room, c) && Happens(s, c, events, room, s', c')
    ensures Valid(s') && Current(s', room, c')
    ensures events != [] && events[|events| - 1].Sync? ==> Mirrors(s', room, c')
    decreases |events|
  {
    hide Valid, Current, Mirrors, Synchronized, Apply;
    if events != [] {
      match events[0] {
        case Change(step) =>
          StepValid(s, step);
          CurrentToken(s, room, c);
          StepAnnounced(s, step, room, c.token);
          AnnouncedKeeps(s, Apply(s, step), room, c);
          RunKeepsCurrent(Apply(s, step), c, events[1..], room, s', c');
        case Sync(copy) =>
          SyncIsExact(s, room, c, copy);
          RunKeepsCurrent(s, copy, events[1..], room, s', c');
      }
      if |events| > 1 {
        assert events[1..][|events| - 2] == events[|events| - 1];
      }
    }
  }

  lemma CurrentToken(s: State, room: int, c: Copy)
    requires Current(s, room, c)
    ensures c.token < s.next
  {
  }

  /** A client that knows nothing is current. */
  lemma EmptyIsCurrent(s: State, room: int)
    requires Valid(s)
    ensures Current(s, room, Copy(0, map[]))
  {
    forall e
      ensures !Changed(s, room, 0, e) ==> Find(s, room, e) == None
    {
      if m :| m in Holders(s, room, e) {
        assert Link(room, m) in s.links && m > 0;
      }
    }
  }

  /** So a new client's copy is exact after each synchronization of every run. */
  lemma NewClientIsExact(s: State, events: seq<Event>, room: int, s': State, c': Copy)
    requires Valid(s) && Happens(s, Copy(0, map[]), events, room, s', c')
    requires events != [] && events[|events| - 1].Sync?
    ensures Mirrors(s', room, c')
  {
    hide Valid, Happens, Mirrors, Current;
    EmptyIsCurrent(s, room);
    RunKeepsCurrent(s, Copy(0, map[]), events, room, s', c');
  }

  /** A synchronization makes a copy exact exactly when it was current before. */
  lemma ExactExactlyIfCurrent(s: State, room: int, c: Copy, c': Copy)
    requires Valid(s) && c.token < s.next && Synchronized(s, room, c, c')
    ensures Mirrors(s, room, c') <==> Current(s, room, c)
  {
    hide Changed, Find, Valid, Token;
    if Current(s, room, c) {
      SyncIsExact(s, room, c, c');
    } else {
      assert exists e :: !Changed(s, room, c.token, e) && Lookup(c.messages, e) != Find(s, room, e);
    }
  }

  // ---- moving a message in ------------------------------------------------

  /** Linking an old message into a room is missed by a current copy, unless the message is newer than
      the copy's token, its euid has changed anyway, or the room has a newer message of that euid. */
  lemma LinkingIn(s: State, room: int, m: nat, c: Copy)
    requires Valid(s) && Current(s, room, c) && m in s.rows && Link(room, m) !in s.links && s.rows[m].euid != ""
    ensures var e := s.rows[m].euid;
            Current(Linked(s, room, m), room, c) <==>
            m > c.token || Changed(s, room, c.token, e) || (Find(s, room, e).Some? && Find(s, room, e).value > m)
  {
    hide Holders, Valid, Find, Changed;
    var s', euid := Linked(s, room, m), s.rows[m].euid;
    assert Link(room, m) in s'.links;
    forall e
      ensures Changed(s', room, c.token, e) <==> Changed(s, room, c.token, e) || (e == euid && m > c.token)
      ensures e != euid ==> Find(s', room, e) == Find(s, room, e)
    {
      ChangedAfterLink(s, room, m, c.token, e);
      if e != euid {
        OthersAfterLink(s, room, m, e);
      }
    }
    FindAfterLink(s, room, m);
    assert Changed(s', room, c.token, euid) || Current(s', room, c) ==>
             Changed(s', room, c.token, euid) || Lookup(c.messages, euid) == Find(s', room, euid);
  }

  /** Such a message: number one, sent to another room, moved in after the client has seen number two. */
  lemma OldMessageIsMissed() returns (s: State, c: Copy)
    ensures Valid(s) && Current(s, 7, c) && c.token == Token(s, 7) == 2
    ensures Link(8, 1) in s.links && s.rows[1].euid == "a"
    ensures !Current(Moved(s, 8, 7, 1, false), 7, c)
  {
    s := State(3, map[1 := Row("a", 0), 2 := Row("b", 0)], {Link(8, 1), Link(7, 2)}, {});
    c := Copy(2, map["b" := 2]);
    OnlySecond(s);
    hide Find, Current;
    assert !Changed(s, 7, 2, "a");
    LinkingIn(s, 7, 1, c);
    GoneFromOther(Linked(s, 7, 1), c);
  }

  lemma OnlySecond(s: State)
    requires s == State(3, map[1 := Row("a", 0), 2 := Row("b", 0)], {Link(8, 1), Link(7, 2)}, {})
    ensures Valid(s) && Current(s, 7, Copy(2, map["b" := 2])) && Token(s, 7) == 2 && Find(s, 7, "a") == None
  {
    assert Numbers(s, 7) == {2};
    forall e
      ensures Find(s, 7, e) == if e == "b" then Some(2) else None
    {
      forall n
        ensures n in Holders(s, 7, e) <==> n == 2 && e == "b"
      {
        HolderIs(s, 7, e, n);
      }
      assert e != "b" ==> Holders(s, 7, e) == {};
      assert e == "b" ==> Holders(s, 7, e) == {2};
    }
  }

  /** Unlinking a message elsewhere does not make a copy of the room current. */
  lemma GoneFromOther(s: State, c: Copy)
    requires Link(8, 1) in s.links && !Current(s, 7, c) && c.token < s.next
    ensures !Current(Unlinked(s, 8, 1), 7, c)
  {
    hide Find;
    var s' := Unlinked(s, 8, 1);
    var e :| !Changed(s, 7, c.token, e) && Lookup(c.messages, e) != Find(s, 7, e);
    assert !Changed(s', 7, c.token, e);
    forall n
      ensures n in Holders(s', 7, e) <==> n in Holders(s, 7, e)
    {
      HolderIs(s, 7, e, n);
      HolderIs(s', 7, e, n);
    }
    SameHolders(s, s', 7, e);
  }

  lemma ChangedAfterLink(s: State, room: int, m: nat, since: nat, e: string)
    requires m in s.rows
    ensures Changed(Linked(s, room, m), room, since, e) <==> Changed(s, room, since, e) || (e == s.rows[m].euid && m > since)
  {
    var s' := Linked(s, room, m);
    assert Link(room, m) in s'.links;
    if l :| l in s.links && l.room == room && l.msg > since && l.msg in s.rows && s.rows[l.msg].euid == e {
      assert l in s'.links;
    }
  }

  lemma OthersAfterLink(s: State, room: int, m: nat, e: string)
    requires m in s.rows && e != s.rows[m].euid
    ensures Find(Linked(s, room, m), room, e) == Find(s, room, e)
  {
    hide Find, Holders;
    var s' := Linked(s, room, m);
    forall n
      ensures n in Holders(s', room, e) <==> n in Holders(s, room, e)
    {
      HolderIs(s, room, e, n);
      HolderIs(s', room, e, n);
    }
    SameHolders(s, s', room, e);
  }

  lemma FindAfterLink(s: State, room: int, m: nat)
    requires m in s.rows && Link(room, m) !in s.links && s.rows[m].euid != ""
    ensures var e := s.rows[m].euid;
            Find(s, room, e) != Some(m) &&
            Find(Linked(s, room, m), room, e) ==
            Some(if Find(s, room, e).Some? && Find(s, room, e).value > m then Find(s, room, e).value else m)
  {
    hide Holders;
    var s', e := Linked(s, room, m), s.rows[m].euid;
    forall n
      ensures n in Holders(s', room, e) <==> n in Holders(s, room, e) || n == m
    {
      HolderIs(s, room, e, n);
      HolderIs(s', room, e, n);
    }
    HolderIs(s, room, e, m);
    assert m in Holders(s', room, e) && m !in Holders(s, room, e);
    assert MaxOf(Holders(s', room, e)) in Holders(s', room, e);
  }

  // ---- replacing by euid --------------------------------------------------

  /** After an upsert the euid stands for the new message and every other euid for what it did; and an
      euid that at most one message carried is carried by the new message alone. */
  lemma UpsertReplaces(s: State, room: int, row: Row)
    requires Valid(s) && row.euid != ""
    ensures var s' := Upserted(s, room, row);
            && Find(s', room, row.euid) == Some(s.next)
            && (forall e :: e != row.euid ==> Find(s', room, e) == Find(s, room, e))
            && (|Holders(s, room, row.euid)| <= 1 ==> Holders(s', room, row.euid) == {s.next})
  {
    hide Holders, Find;
    var s', held := Upserted(s, room, row), Find(s, room, row.euid);
    forall e | e != row.euid
      ensures Find(s', room, e) == Find(s, room, e)
    {
      forall m
        ensures m in Holders(s', room, e) <==> m in Holders(s, room, e)
      {
        UpsertHolder(s, room, row, e, m);
      }
      SameHolders(s, s', room, e);
    }
    forall m
      ensures m in Holders(s', room, row.euid) <==> (m in Holders(s, room, row.euid) && held != Some(m)) || m == s.next
    {
      UpsertHolder(s, room, row, row.euid, m);
    }
    HoldersBelow(s, room, row.euid);
    NewestHolder(s', room, row.euid, s.next);
    if |Holders(s, room, row.euid)| <= 1 {
      OnlyHolder(s, room, row.euid);
      assert forall m :: m in Holders(s', room, row.euid) <==> m == s.next;
    }
  }

  lemma UpsertHolder(s: State, room: int, row: Row, e: string, m: nat)
    requires Valid(s) && row.euid != ""
    ensures m in Holders(Upserted(s, room, row), room, e) <==>
            (m in Holders(s, room, e) && !(Find(s, room, row.euid) == Some(m) && e == row.euid)) || (e == row.euid && m == s.next)
  {
    hide Holders, Find;
    var s', held := Upserted(s, room, row), Find(s, room, row.euid);
    HolderIs(s, room, e, m);
    HolderIs(s', room, e, m);
    if held.Some? {
      FoundHolds(s, room, row.euid);
      HolderIs(s, room, row.euid, held.value);
    }
  }

  lemma FoundHolds(s: State, room: int, e: string)
    requires Find(s, room, e).Some?
    ensures Find(s, room, e).value in Holders(s, room, e)
  {
  }

  lemma HoldersBelow(s: State, room: int, e: string)
    requires Valid(s)
    ensures forall m :: m in Holders(s, room, e) ==> m < s.next
  {
  }

  lemma NewestHolder(s: State, room: int, e: string, m: nat)
    requires e != "" && m in Holders(s, room, e) && forall n :: n in Holders(s, room, e) ==> n <= m
    ensures Find(s, room, e) == Some(m)
  {
  }

  lemma OnlyHolder(s: State, room: int, e: string)
    requires e != "" && |Holders(s, room, e)| <= 1
    ensures forall m :: m in Holders(s, room, e) ==> Find(s, room, e) == Some(m)
  {
    var ns := Holders(s, room, e);
    forall m | m in ns
      ensures MaxOf(ns) == m
    {
      assert |ns - {m}| == |ns| - 1;
      assert MaxOf(ns) in ns;
      assert MaxOf(ns) !in ns - {m};
    }
  }
}
