/** Closing, losing a connection and removing a file take subscriptions away and nothing else. */
module DocumentClosing {
  import opened DocumentProtocol
  import opened DocumentSync
  import opened Vectors

  /** The first subscription of a connection goes, and no other. */
  lemma DropSubIs(subs: seq<Sub>, conn: ConnId)
    requires NoRepeats(subs)
    ensures NoRepeats(DropSub(subs, conn))
    ensures var k := FirstSub(subs, conn);
      forall x :: x in DropSub(subs, conn) <==> x in subs && !(k < |subs| && x == subs[k])
  {
    var k := FirstSub(subs, conn);
    if k < |subs| {
      var last := |subs| - 1;
      var rest := RemoveIndexQuick(subs, k);
      forall x | x in subs && x != subs[k] ensures x in rest {
        var i :| 0 <= i < |subs| && subs[i] == x;
        assert i == last ==> rest[k] == x;
        assert i != last ==> rest[i] == x;
      }
    }
  }

  /** Nothing that a subscriber or its editor would notice was sent. */
  ghost predicate Quiet(s: Server, s': Server) {
    forall c, d :: SoundsLike(Wire(s', c), Wire(s, c), d)
  }

  ghost predicate RefsHeld(s: Server) {
    forall f :: RefCount(s, f) == (if f in s.open then 1 else 0)
  }

  /** g lost at most some subscribers. */
  ghost predicate LostSome(s: Server, s': Server, g: FileId) {
    && g in s.open && g in s'.open && DocOf(s', g) == DocOf(s, g) && (g in s.docs ==> g in s'.docs)
    && s'.open[g] == s.open[g].(connections := s'.open[g].connections)
    && s'.open[g].connections != []
    && (NoRepeats(s.open[g].connections) ==> NoRepeats(s'.open[g].connections))
    && forall sub :: sub in s'.open[g].connections ==> sub in s.open[g].connections
  }

  ghost predicate Dropped(s: Server, s': Server) {
    && (forall g :: g in s'.open ==> LostSome(s, s', g))
    && Quiet(s, s') && RefsHeld(s') && s'.changed == s.changed
  }

  lemma DroppedTwice(s: Server, s1: Server, s2: Server)
    requires Dropped(s, s1) && Dropped(s1, s2)
    ensures Dropped(s, s2)
  {
    hide RefsHeld, NoRepeats;
    QuietTwice(s, s1, s2);
    hide Quiet;
    forall g | g in s2.open ensures LostSome(s, s2, g) {
      assert LostSome(s1, s2, g);
      assert LostSome(s, s1, g);
    }
  }

  lemma QuietTwice(s: Server, s1: Server, s2: Server)
    requires Quiet(s, s1) && Quiet(s1, s2)
    ensures Quiet(s, s2)
  {
    hide Replay, Gens, Wire;
    forall c, d ensures SoundsLike(Wire(s2, c), Wire(s, c), d) {
      assert SoundsLike(Wire(s2, c), Wire(s1, c), d) && SoundsLike(Wire(s1, c), Wire(s, c), d);
    }
  }

  lemma SameQuiet(s: Server, s': Server)
    requires s'.wires == s.wires
    ensures Quiet(s, s')
  {
  }

  lemma ClosedIsQuiet(s: Server, s': Server, conn: ConnId, p: Packet)
    requires !Numbered(p.body)
    requires s'.wires == s.wires[conn := Wire(s, conn) + [p]]
    ensures Quiet(s, s')
  {
    hide Replay, Gens;
    forall c, d ensures SoundsLike(Wire(s', c), Wire(s, c), d) {
      ReplaySnoc(NEW_EDITOR, Wire(s, conn), p, d);
    }
  }

  lemma DroppedKeeps(s: Server, s': Server, on: iset<FileId>)
    requires Inv(s, on) && Dropped(s, s')
    ensures Inv(s', on)
    ensures s'.changed == s.changed
  {
    assert OnlyOnce(s') && Populated(s') by {
      hide NoRepeats, AllInSync, Quiet;
      forall f, g, sub | f in s'.open && g in s'.open && sub in s'.open[f].connections && sub in s'.open[g].connections
        ensures f == g
      {
        assert LostSome(s, s', f) && LostSome(s, s', g);
      }
    }
    assert Refs(s') by {
      hide OnlyOnce, Populated, AllInSync, Quiet, NoRepeats;
      assert forall g :: g in s'.open ==> LostSome(s, s', g);
    }
    hide OnlyOnce, Populated, Refs, RefsHeld, NoRepeats, SoundsLike;
    forall g, sub | g in s'.open && sub in s'.open[g].connections
      ensures InSync(Wire(s', sub.conn), sub.docId, DocOf(s', g), s'.open[g], g in s'.changed, g in on)
    {
      assert LostSome(s, s', g);
      assert InSync(Wire(s, sub.conn), sub.docId, DocOf(s, g), s.open[g], g in s.changed, g in on);
      hide InSync;
      InSyncSounds(Wire(s', sub.conn), Wire(s, sub.conn), sub.docId, DocOf(s', g), s'.open[g], g in s'.changed, g in on);
      SameSyncs(Wire(s, sub.conn), sub.docId, DocOf(s, g), s.open[g], s'.open[g], g in s.changed, g in on);
    }
  }

  // One client closes one document

  lemma ReleaseIs(s: Server, f: FileId, linked: bool)
    requires RefsHeld(s) && f in s.open
    ensures var s' := Release(s, f, linked);
      && RefsHeld(s') && s'.open == s.open - {f} && s'.clients == s.clients && s'.wires == s.wires && s'.changed == s.changed
      && forall g :: g != f ==> DocOf(s', g) == DocOf(s, g) && (g in s.docs ==> g in s'.docs)
  {
  }

  /** f loses the first subscription of the connection, and is closed when that was the last. */
  ghost predicate ConnectionDropped(s: Server, s': Server, f: FileId, conn: ConnId) {
    && f in s.open
    && SubsOf(s', f) == DropSub(s.open[f].connections, conn)
    && (f in s'.open ==>
          && DocOf(s', f) == DocOf(s, f) && (f in s.docs ==> f in s'.docs)
          && s'.open[f] == s.open[f].(connections := s'.open[f].connections) && s'.open[f].connections != [])
  }

  ghost predicate OthersOpen(s: Server, s': Server, f: FileId) {
    forall g :: g != f ==>
      && (g in s'.open <==> g in s.open)
      && (g in s.open ==> s'.open[g] == s.open[g] && DocOf(s', g) == DocOf(s, g) && (g in s.docs ==> g in s'.docs))
  }

  lemma DropConnectionIs(s: Server, f: FileId, conn: ConnId, linked: bool)
    requires f in s.open && RefsHeld(s)
    ensures var s' := DropConnection(s, f, conn, linked);
      && ConnectionDropped(s, s', f, conn) && OthersOpen(s, s', f) && RefsHeld(s')
      && s'.clients == s.clients && s'.wires == s.wires && s'.changed == s.changed
  {
    var subs := DropSub(s.open[f].connections, conn);
    var s1 := s.(open := s.open[f := s.open[f].(connections := subs)]);
    assert RefsHeld(s1) by {
      hide DropSub;
    }
    if subs == [] {
      ReleaseIs(s1, f, linked);
    }
    hide Release, DropSub, RefsHeld;
  }

  lemma ConnectionDrops(s: Server, s': Server, f: FileId, conn: ConnId)
    requires ConnectionDropped(s, s', f, conn) && OthersOpen(s, s', f) && RefsHeld(s') && Populated(s)
    requires Quiet(s, s') && s'.changed == s.changed
    ensures Dropped(s, s')
  {
    hide Quiet, RefsHeld;
    forall g | g in s'.open ensures LostSome(s, s', g) {
      if g == f && NoRepeats(s.open[f].connections) {
        DropSubIs(s.open[f].connections, conn);
      } else if g == f {
        DropSubFewer(s.open[f].connections, conn);
      }
      hide DropSub, NoRepeats;
    }
  }

  lemma DropSubFewer(subs: seq<Sub>, conn: ConnId)
    ensures forall x :: x in DropSub(subs, conn) ==> x in subs
  {
  }

  lemma CloseIs(s: Server, docId: DocId, conn: ConnId, linked: bool)
    requires RefsHeld(s) && GetDocumentForClient(s, docId, conn).Some?
    ensures var f, s' := GetDocumentForClient(s, docId, conn).value, Close(s, docId, conn, linked);
      && ConnectionDropped(s, s', f, conn) && OthersOpen(s, s', f) && RefsHeld(s')
      && s'.clients == s.clients[conn := DropFile(s.clients[conn], f)]
      && s'.wires == s.wires[conn := Wire(s, conn) + [Packet(docId, Closed)]] && s'.changed == s.changed
  {
    var f := GetDocumentForClient(s, docId, conn).value;
    DropConnectionIs(s, f, conn, linked);
    hide DropConnection, DropSub, DropFile;
  }

  lemma CloseKeeps(s: Server, docId: DocId, conn: ConnId, linked: bool, on: iset<FileId>)
    requires Inv(s, on)
    ensures Inv(Close(s, docId, conn, linked), on)
    ensures Close(s, docId, conn, linked).changed == s.changed
  {
    if GetDocumentForClient(s, docId, conn).Some? {
      CloseIs(s, docId, conn, linked);
      hide Close;
      var s' := Close(s, docId, conn, linked);
      ClosedIsQuiet(s, s', conn, Packet(docId, Closed));
      ConnectionDrops(s, s', GetDocumentForClient(s, docId, conn).value, conn);
      DroppedKeeps(s, s', on);
    }
  }

  /** A client that closes a document id under which it subscribes ends exactly its first
      subscription of the document. That is the one it means if and only if the first has the id. */
  lemma CloseExactly(s: Server, docId: DocId, conn: ConnId, linked: bool)
    requires OnlyOnce(s) && RefsHeld(s) && GetDocumentForClient(s, docId, conn).Some?
    requires Sub(conn, docId) in s.open[GetDocumentForClient(s, docId, conn).value].connections
    ensures var f, s' := GetDocumentForClient(s, docId, conn).value, Close(s, docId, conn, linked);
      var first := s.open[f].connections[FirstSub(s.open[f].connections, conn)];
      && (Sub(conn, docId) !in SubsOf(s', f) <==> first.docId == docId)
      && (forall sub :: sub in SubsOf(s', f) <==> sub in SubsOf(s, f) && sub != first)
      && forall g :: g != f ==> SubsOf(s', g) == SubsOf(s, g)
  {
    var f, s' := GetDocumentForClient(s, docId, conn).value, Close(s, docId, conn, linked);
    CloseIs(s, docId, conn, linked);
    DropSubIs(s.open[f].connections, conn);
    hide Close, DropSub, NoRepeats, RefsHeld;
    assert OthersOpen(s, s', f);
  }

  // A connection is lost

  lemma {:induction false} DropAllDrops(s: Server, conn: ConnId, list: seq<ClientDoc>, linked: set<FileId>)
    requires RefsHeld(s) && Populated(s)
    ensures Dropped(s, DropAll(s, conn, list, linked)) && Populated(DropAll(s, conn, list, linked))
    ensures DropAll(s, conn, list, linked).clients == s.clients
    ensures forall g, sub: Sub :: sub.conn != conn ==>
      (sub in SubsOf(DropAll(s, conn, list, linked), g) <==> sub in SubsOf(s, g))
  {
    if list == [] {
      SameQuiet(s, s);
      hide NoRepeats, Quiet;
    } else {
      var init, f := list[..|list| - 1], list[|list| - 1].file;
      DropAllDrops(s, conn, init, linked);
      var s1 := DropAll(s, conn, init, linked);
      DropOneMore(s1, f, conn, f in linked);
      hide DropConnection, Populated;
      DroppedTwice(s, s1, DropAll(s, conn, list, linked));
    }
  }

  lemma DropOneMore(s: Server, f: FileId, conn: ConnId, linked: bool)
    requires RefsHeld(s) && Populated(s)
    ensures var s' := DropConnection(s, f, conn, linked);
      && Dropped(s, s') && Populated(s') && s'.clients == s.clients
      && forall g, sub: Sub :: sub.conn != conn ==> (sub in SubsOf(s', g) <==> sub in SubsOf(s, g))
  {
    var s' := DropConnection(s, f, conn, linked);
    if f in s.open {
      DropConnectionIs(s, f, conn, linked);
      SameQuiet(s, s');
      ConnectionDrops(s, s', f, conn);
      DropSubOthers(s.open[f].connections, conn);
      hide DropConnection, DropSub, Quiet, RefsHeld, NoRepeats;
      assert OthersOpen(s, s', f);
    } else {
      SameQuiet(s, s');
      hide Quiet, NoRepeats;
    }
  }

  lemma DropSubOthers(subs: seq<Sub>, conn: ConnId)
    ensures forall x: Sub :: x.conn != conn ==> (x in DropSub(subs, conn) <==> x in subs)
  {
    var k := FirstSub(subs, conn);
    if k < |subs| {
      var last := |subs| - 1;
      var rest := RemoveIndexQuick(subs, k);
      forall x | x in subs && x.conn != conn ensures x in rest {
        var i :| 0 <= i < |subs| && subs[i] == x;
        assert i == last ==> rest[k] == x;
        assert i != last ==> rest[i] == x;
      }
    }
  }

  /** Nobody else loses a document when a connection is lost. */
  lemma DisconnectKeeps(s: Server, conn: ConnId, linked: set<FileId>, on: iset<FileId>)
    requires Inv(s, on)
    ensures Inv(Disconnect(s, conn, linked), on)
    ensures Disconnect(s, conn, linked).changed == s.changed
    ensures forall g, sub: Sub :: sub.conn != conn ==>
      (sub in SubsOf(Disconnect(s, conn, linked), g) <==> sub in SubsOf(s, g))
  {
    if conn in s.clients {
      assert RefsHeld(s);
      DropAllDrops(s, conn, s.clients[conn], linked);
      var s1 := DropAll(s, conn, s.clients[conn], linked);
      var s' := Disconnect(s, conn, linked);
      assert Dropped(s, s') by {
        hide Inv, NoRepeats, SoundsLike;
        forall g | g in s'.open ensures LostSome(s, s', g) {
          assert LostSome(s, s1, g);
        }
        forall c, d ensures SoundsLike(Wire(s', c), Wire(s, c), d) {
          assert SoundsLike(Wire(s1, c), Wire(s, c), d);
        }
      }
      hide Inv, Dropped, Populated;
      DroppedKeeps(s, s', on);
    }
  }

  // A file is removed

  lemma {:induction false} TellRemovedTells(s: Server, f: FileId, subs: seq<Sub>)
    ensures var s' := TellRemoved(s, f, subs); Quiet(s, s') && s' == s.(clients := s'.clients, wires := s'.wires)
  {
    if subs == [] {
      SameQuiet(s, s);
    } else {
      var init, last := subs[..|subs| - 1], subs[|subs| - 1];
      TellRemovedTells(s, f, init);
      var s1 := TellRemoved(s, f, init);
      if last.conn in s1.clients {
        ClosedIsQuiet(s1, TellRemoved(s, f, subs), last.conn, Packet(last.docId, Closed));
        QuietTwice(s, s1, TellRemoved(s, f, subs));
      }
      hide Quiet, DropFile;
    }
  }

  /** Nobody loses another document when a file is removed. */
  lemma RemovedKeeps(s: Server, f: FileId, linked: bool, on: iset<FileId>)
    requires Inv(s, on)
    ensures Inv(HandleDocumentRemoved(s, f, linked), on)
    ensures HandleDocumentRemoved(s, f, linked).changed == s.changed
    ensures forall g :: SubsOf(HandleDocumentRemoved(s, f, linked), g) == if g == f then [] else SubsOf(s, g)
  {
    if f in s.open {
      var s1 := TellRemoved(s, f, s.open[f].connections);
      TellRemovedTells(s, f, s.open[f].connections);
      assert RefsHeld(s1) && s1.open == s.open && s1.docs == s.docs;
      ReleaseIs(s1, f, linked);
      var s' := HandleDocumentRemoved(s, f, linked);
      assert Dropped(s, s') by {
        hide TellRemoved, NoRepeats, SoundsLike, AllInSync;
        forall g | g in s'.open ensures LostSome(s, s', g) {
        }
        forall c, d ensures SoundsLike(Wire(s', c), Wire(s, c), d) {
          assert SoundsLike(Wire(s1, c), Wire(s, c), d);
        }
      }
      hide HandleDocumentRemoved, Inv, Dropped, Release;
      DroppedKeeps(s, s', on);
    }
  }
}
