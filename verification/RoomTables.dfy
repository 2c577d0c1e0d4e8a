/** The store calls, proved against the room state machine. */
module RoomTables {
  import opened Text
  import opened RoomStore

  /** One entry of a change list. */
  datatype RoomChange = RoomChange(seqNo: nat, euid: string, msg: nat, deleted: bool)

  /** The messages among some links that are in a room and newer than a token. */
  ghost function Additions(s: State, room: int, since: nat, ls: set<Link>): set<RoomChange> {
    set l | l in ls && l.room == room && l.msg > since && l.msg in s.rows :: RoomChange(l.msg, s.rows[l.msg].euid, l.msg, false)
  }

  /** The tombstones among some that are in a room and newer than a token. */
  ghost function Removals(room: int, since: nat, ts: set<Tomb>): set<RoomChange> {
    set t | t in ts && t.room == room && t.seqNo > since :: RoomChange(t.seqNo, t.euid, t.msg, true)
  }

  ghost function ChangesSince(s: State, room: int, since: nat): set<RoomChange> {
    Additions(s, room, since, s.links) + Removals(room, since, s.tombs)
  }

  lemma OneLink(s: State, room: int, since: nat, ls: set<Link>, l: Link)
    requires l in ls
    ensures Additions(s, room, since, ls) == Additions(s, room, since, ls - {l}) +
            (if l.room == room && l.msg > since && l.msg in s.rows then {RoomChange(l.msg, s.rows[l.msg].euid, l.msg, false)} else {})
  {
    assert ls == (ls - {l}) + {l};
  }

  lemma OneTomb(room: int, since: nat, ts: set<Tomb>, t: Tomb)
    requires t in ts
    ensures Removals(room, since, ts) == Removals(room, since, ts - {t}) +
            (if t.room == room && t.seqNo > since then {RoomChange(t.seqNo, t.euid, t.msg, true)} else {})
  {
    assert ts == (ts - {t}) + {t};
  }

  /** Every change has a number after the token asked about and up to the token of the room. */
  lemma ChangesAreNew(s: State, room: int, since: nat)
    ensures forall c :: c in ChangesSince(s, room, since) ==> since < c.seqNo <= Token(s, room)
  {
    forall c | c in ChangesSince(s, room, since)
      ensures since < c.seqNo <= Token(s, room)
    {
      assert c.seqNo in Numbers(s, room);
    }
  }

  /** An euid is in the change list exactly when a number after the token names it. */
  lemma ChangesNameChanged(s: State, room: int, since: nat, euid: string)
    ensures Changed(s, room, since, euid) <==> exists c :: c in ChangesSince(s, room, since) && c.euid == euid
  {
    if l :| l in s.links && l.room == room && l.msg > since && l.msg in s.rows && s.rows[l.msg].euid == euid {
      assert RoomChange(l.msg, euid, l.msg, false) in ChangesSince(s, room, since);
    } else if t :| t in s.tombs && t.room == room && t.seqNo > since && t.euid == euid {
      assert RoomChange(t.seqNo, t.euid, t.msg, true) in ChangesSince(s, room, since);
    }
  }

  lemma LinksOfPrefix(rooms: seq<int>, i: nat, n: nat)
    requires i < |rooms|
    ensures (set r | r in (set k | 0 <= k < i + 1 :: rooms[k]) :: Link(r, n)) ==
            (set r | r in (set k | 0 <= k < i :: rooms[k]) :: Link(r, n)) + {Link(rooms[i], n)}
  {
    var a, b := (set k | 0 <= k < i + 1 :: rooms[k]), (set k | 0 <= k < i :: rooms[k]);
    assert a == b + {rooms[i]};
  }

  function RoomSet(rooms: seq<int>): set<int> {
    set k | 0 <= k < |rooms| :: rooms[k]
  }

  class Store {
    var next: nat
    var rows: map<nat, Row>
    var links: set<Link>
    var tombs: set<Tomb>

    constructor ()
      ensures View() == State(1, map[], {}, {}) && Valid(View())
    {
      next, rows, links, tombs := 1, map[], {}, {};
    }

    ghost function View(): State
      reads this
    {
      State(next, rows, links, tombs)
    }

    /** A row and its room pointers, in one transaction. */
    method InsertMessage(row: Row, rooms: seq<int>) returns (msgnum: nat)
      modifies this
      ensures msgnum == old(next) && View() == Inserted(old(View()), row, RoomSet(rooms))
    {
      msgnum := next;
      next := next + 1;
      rows := rows[msgnum := row];
      for i := 0 to |rooms|
        invariant msgnum == old(next) && next == msgnum + 1 && rows == old(rows)[msgnum := row] && tombs == old(tombs)
        invariant links == old(links) + set r | r in (set k | 0 <= k < i :: rooms[k]) :: Link(r, msgnum)
      {
        LinksOfPrefix(rooms, i, msgnum);
        links := links + {Link(rooms[i], msgnum)};
      }
    }

    method MessageInRoom(room: int, m: nat) returns (b: bool)
      ensures b == (Link(room, m) in links)
    {
      b := Link(room, m) in links;
    }

    /** The euid is read before the link goes; the tombstone is written after. */
    method Unlink(room: int, m: nat)
      modifies this
      ensures View() == Unlinked(old(View()), room, m)
    {
      var euid := if m in rows then rows[m].euid else "";
      links := links - {Link(room, m)};
      var seqNo := next;
      next := next + 1;
      tombs := tombs + {Tomb(room, seqNo, euid, m)};
    }

    method DeleteMessage(room: int, m: nat) returns (ok: bool)
      modifies this
      ensures ok == (Link(room, m) in old(links)) && View() == Deleted(old(View()), room, m)
    {
      ok := MessageInRoom(room, m);
      if ok {
        Unlink(room, m);
      }
    }

    method FindByEuid(room: int, euid: string) returns (r: Option<nat>)
      ensures r == Find(View(), room, euid)
    {
      if euid == "" {
        return None;
      }
      r := None;
      var left := links;
      while left != {}
        invariant left <= links
        invariant r.Some? ==> r.value in Holders(View(), room, euid)
        invariant forall m :: m in Holders(View(), room, euid) ==> Link(room, m) in left || (r.Some? && m <= r.value)
        decreases left
      {
        var l :| l in left;
        left := left - {l};
        if l.room == room && l.msg in rows && rows[l.msg].euid == euid && (r.None? || r.value < l.msg) {
          HolderIs(View(), room, euid, l.msg);
          r := Some(l.msg);
        }
      }
      FoundIs(View(), room, euid, r);
    }

    /** Insert first, unlink the replaced message second. */
    method UpsertByEuid(room: int, row: Row) returns (r: Option<nat>)
      requires Valid(View())
      modifies this
      ensures View() == Upserted(old(View()), room, row)
      ensures r == if row.euid == "" then None else Some(old(next))
    {
      hide Find, Inserted, Deleted;
      if row.euid == "" {
        return None;
      }
      var held := FindByEuid(room, row.euid);
      var created := InsertMessage(row, [room]);
      OneRoom(room);
      FoundBelowNext(old(View()), room, row.euid);
      if held.Some? && held.value != created {
        var ok := DeleteMessage(room, held.value);
      }
      r := Some(created);
    }

    method MoveMessage(from: int, target: int, targetExists: bool, m: nat, isCopy: bool) returns (ok: bool)
      modifies this
      ensures ok == (Link(from, m) in old(links) && targetExists)
      ensures View() == if targetExists then Moved(old(View()), from, target, m, isCopy) else old(View())
    {
      ok := MessageInRoom(from, m);
      if !ok {
        return;
      }
      if !targetExists {
        return false;
      }
      if from == target {
        return;
      }
      links := links + {Link(target, m)};
      if !isCopy {
        Unlink(from, m);
      }
    }

    method RoomChangeToken(room: int) returns (token: nat)
      ensures token == Token(View(), room)
    {
      token := 0;
      ghost var numbers := Numbers(View(), room);
      var left := links;
      while left != {}
        invariant left <= links && (token == 0 || token in numbers)
        invariant forall l :: l in links && l.room == room ==> l in left || l.msg <= token
        decreases left
      {
        var l :| l in left;
        left := left - {l};
        if l.room == room && token < l.msg {
          assert l.msg in numbers;
          token := l.msg;
        }
      }
      var graves := tombs;
      while graves != {}
        invariant graves <= tombs && (token == 0 || token in numbers)
        invariant forall l :: l in links && l.room == room ==> l.msg <= token
        invariant forall t :: t in tombs && t.room == room ==> t in graves || t.seqNo <= token
        decreases graves
      {
        var t :| t in graves;
        graves := graves - {t};
        if t.room == room && token < t.seqNo {
          assert t.seqNo in numbers;
          token := t.seqNo;
        }
      }
    }

    /** An euid is named exactly when a number after the token names it, and asking again with the room's
        token tells nothing that was told. */
    method RoomChangesSince(room: int, since: nat) returns (changes: set<RoomChange>)
      ensures changes == ChangesSince(View(), room, since)
      ensures forall e :: Changed(View(), room, since, e) <==> exists c :: c in changes && c.euid == e
      ensures forall c :: c in changes ==> since < c.seqNo <= Token(View(), room)
    {
      hide Changed, Token, Additions, Removals;
      ghost var s := View();
      changes := {};
      var left := links;
      NothingAdded(s, room, since);
      while left != {}
        invariant left <= links && changes == Additions(s, room, since, links - left)
        decreases left
      {
        var l :| l in left;
        assert links - (left - {l}) == (links - left) + {l} && (links - (left - {l})) - {l} == links - left;
        OneLink(s, room, since, links - (left - {l}), l);
        left := left - {l};
        if l.room == room && l.msg > since && l.msg in rows {
          changes := changes + {RoomChange(l.msg, rows[l.msg].euid, l.msg, false)};
        }
      }
      assert links - left == links;
      ghost var additions := changes;
      var graves := tombs;
      while graves != {}
        invariant graves <= tombs && changes == additions + Removals(room, since, tombs - graves)
        decreases graves
      {
        var t :| t in graves;
        assert tombs - (graves - {t}) == (tombs - graves) + {t} && (tombs - (graves - {t})) - {t} == tombs - graves;
        OneTomb(room, since, tombs - (graves - {t}), t);
        graves := graves - {t};
        if t.room == room && t.seqNo > since {
          changes := changes + {RoomChange(t.seqNo, t.euid, t.msg, true)};
        }
      }
      assert tombs - graves == tombs;
      forall e
        ensures Changed(s, room, since, e) <==> exists c :: c in changes && c.euid == e
      {
        ChangesNameChanged(s, room, since, e);
      }
      ChangesAreNew(s, room, since);
    }
  }

  lemma NothingAdded(s: State, room: int, since: nat)
    ensures Additions(s, room, since, s.links - s.links) == {} && Removals(room, since, s.tombs - s.tombs) == {}
  {
  }

  lemma FoundIs(s: State, room: int, euid: string, r: Option<nat>)
    requires euid != ""
    requires r.Some? ==> r.value in Holders(s, room, euid)
    requires forall m :: m in Holders(s, room, euid) ==> r.Some? && m <= r.value
    ensures r == Find(s, room, euid)
  {
    if r.Some? {
    } else {
      assert Holders(s, room, euid) == {};
    }
  }

  lemma OneRoom(room: int)
    ensures RoomSet([room]) == {room}
  {
    assert [room][0] == room;
    assert forall r :: r in RoomSet([room]) <==> r == room;
  }

  /** What an euid stands for was there before the next number is drawn. */
  lemma FoundBelowNext(s: State, room: int, euid: string)
    requires Valid(s)
    ensures Find(s, room, euid).Some? ==> Find(s, room, euid).value < s.next
  {
    if Find(s, room, euid).Some? {
      HolderIs(s, room, euid, Find(s, room, euid).value);
    }
  }

  /** A client that keeps a copy of one room. */
  class Mirror {
    const room: int
    var copy: Copy

    constructor (r: int)
      ensures room == r && copy == Copy(0, map[])
    {
      room := r;
      copy := Copy(0, map[]);
    }

    /** Ask for the changes since the last token, resolve each euid named there, keep the new token. */
    method Synchronize(store: Store)
      modifies this
      ensures Synchronized(store.View(), room, old(copy), copy)
    {
      hide Find, Changed, Token, ChangesSince;
      ghost var s, before := store.View(), copy;
      var changes := store.RoomChangesSince(room, copy.token);
      var token := store.RoomChangeToken(room);
      var left := changes;
      while left != {}
        invariant left <= changes && copy.token == before.token
        invariant forall e :: (exists c :: c in changes - left && c.euid == e) ==> Lookup(copy.messages, e) == Find(s, room, e)
        invariant forall e :: !(exists c :: c in changes - left && c.euid == e) ==> Lookup(copy.messages, e) == Lookup(before.messages, e)
        decreases left
      {
        var c :| c in left;
        ghost var done := changes - left;
        left := left - {c};
        assert changes - left == done + {c};
        var found := store.FindByEuid(room, c.euid);
        copy := copy.(messages := if found.Some? then copy.messages[c.euid := found.value] else copy.messages - {c.euid});
      }
      assert changes - left == changes;
      forall e
        ensures Changed(s, room, before.token, e) <==> exists c :: c in changes && c.euid == e
      {
        ChangesNameChanged(s, room, before.token, e);
      }
      copy := copy.(token := token);
    }
  }
}
