/** Who has what open, counted: it comes out even in every run, however often a client opens a
    file and whatever becomes of documents in between. */
module DocumentCounts {
  import opened DocumentClosing
  import opened DocumentProtocol
  import opened DocumentRuns
  import opened DocumentSync

  function ConnCount(subs: seq<Sub>, conn: ConnId): nat {
    if subs == [] then 0
    else ConnCount(subs[..|subs| - 1], conn) + if subs[|subs| - 1].conn == conn then 1 else 0
  }

  function FileCount(list: seq<ClientDoc>, f: FileId): nat {
    if list == [] then 0
    else FileCount(list[..|list| - 1], f) + if list[|list| - 1].file == f then 1 else 0
  }

  /** Every subscription of a connection has its entry in the client's list, and the other way. */
  ghost predicate Balanced(s: Server) {
    forall f, c :: ConnCount(SubsOf(s, f), c) == FileCount(ClientDocs(s, c), f)
  }

  /** A document is open as long as somebody has it, and the server then holds one reference. */
  ghost predicate Held(s: Server) {
    RefsHeld(s) && Populated(s)
  }

  function Less(a: nat, b: nat): nat {
    if a <= b then 0 else a - b
  }

  // Taking one out

  lemma {:induction false} ConnCountUpdate(subs: seq<Sub>, k: nat, sub: Sub, conn: ConnId)
    requires k < |subs|
    ensures ConnCount(subs[k := sub], conn) + (if subs[k].conn == conn then 1 else 0)
      == ConnCount(subs, conn) + if sub.conn == conn then 1 else 0
  {
    var n := |subs| - 1;
    if k == n {
      assert subs[k := sub][..n] == subs[..n];
    } else {
      ConnCountUpdate(subs[..n], k, sub, conn);
      assert subs[k := sub][..n] == subs[..n][k := sub];
    }
  }

  lemma {:induction false} ConnCountNone(subs: seq<Sub>, conn: ConnId)
    ensures ConnCount(subs, conn) == 0 <==> forall k :: 0 <= k < |subs| ==> subs[k].conn != conn
  {
    if subs != [] {
      var n := |subs| - 1;
      ConnCountNone(subs[..n], conn);
      assert forall k :: 0 <= k < n ==> subs[..n][k] == subs[k];
    }
  }

  lemma DropSubCounts(subs: seq<Sub>, conn: ConnId, c: ConnId)
    ensures ConnCount(DropSub(subs, conn), c)
      == if c == conn && ConnCount(subs, c) > 0 then ConnCount(subs, c) - 1 else ConnCount(subs, c)
  {
    ConnCountNone(subs, conn);
    var k := FirstSub(subs, conn);
    if k < |subs| {
      ConnCountUpdate(subs, k, subs[|subs| - 1], c);
      hide FirstSub;
      assert DropSub(subs, conn) == subs[k := subs[|subs| - 1]][..|subs| - 1];
    }
  }

  lemma {:induction false} FileCountUpdate(list: seq<ClientDoc>, k: nat, e: ClientDoc, f: FileId)
    requires k < |list|
    ensures FileCount(list[k := e], f) + (if list[k].file == f then 1 else 0)
      == FileCount(list, f) + if e.file == f then 1 else 0
  {
    var n := |list| - 1;
    if k == n {
      assert list[k := e][..n] == list[..n];
    } else {
      FileCountUpdate(list[..n], k, e, f);
      assert list[k := e][..n] == list[..n][k := e];
    }
  }

  lemma {:induction false} FileCountNone(list: seq<ClientDoc>, f: FileId)
    ensures FileCount(list, f) == 0 <==> forall k :: 0 <= k < |list| ==> list[k].file != f
  {
    if list != [] {
      var n := |list| - 1;
      FileCountNone(list[..n], f);
      assert forall k :: 0 <= k < n ==> list[..n][k] == list[k];
    }
  }

  lemma DropFileCounts(list: seq<ClientDoc>, f: FileId, g: FileId)
    ensures FileCount(DropFile(list, f), g)
      == if g == f && FileCount(list, g) > 0 then FileCount(list, g) - 1 else FileCount(list, g)
  {
    FileCountNone(list, f);
    var k := FirstFile(list, f);
    if k < |list| {
      FileCountUpdate(list, k, list[|list| - 1], g);
      hide FirstFile;
      assert DropFile(list, f) == list[k := list[|list| - 1]][..|list| - 1];
    }
  }

  // What leaves the lists alone

  ghost predicate ListsKept(s: Server, s': Server) {
    && s'.clients == s.clients && s'.refs == s.refs && s'.open.Keys == s.open.Keys
    && forall f :: f in s.open ==> s'.open[f].connections == s.open[f].connections
  }

  lemma KeptCounts(s: Server, s': Server)
    requires ListsKept(s, s') && Balanced(s) && Held(s)
    ensures Balanced(s') && Held(s')
  {
    forall f, c ensures ConnCount(SubsOf(s', f), c) == FileCount(ClientDocs(s', c), f) {
      assert SubsOf(s', f) == SubsOf(s, f) && ClientDocs(s', c) == ClientDocs(s, c);
    }
  }

  lemma {:induction false} BroadcastKeepsLists(s: Server, subs: seq<Sub>, body: Body)
    ensures ListsKept(s, Broadcast(s, subs, body))
  {
    if subs != [] {
      BroadcastKeepsLists(s, subs[..|subs| - 1], body);
    }
  }

  lemma {:induction false} OpsKeepLists(s: Server, ops: seq<DocOp>)
    ensures ListsKept(s, ApplyOps(s, ops))
  {
    if ops != [] {
      OpsKeepLists(s, ops[..|ops| - 1]);
      OpKeepsLists(ApplyOps(s, ops[..|ops| - 1]), ops[|ops| - 1]);
    }
  }

  lemma OpKeepsLists(s: Server, op: DocOp)
    ensures ListsKept(s, ApplyOp(s, op))
  {
    if op.NewState? && op.file in s.open {
      var s1 := s.(docs := s.docs[op.file := op.doc]);
      BroadcastKeepsLists(s1, s.open[op.file].connections, StateOf(DocOf(s1, op.file), s.open[op.file].dataGen));
    }
  }

  lemma {:induction false} SendInOrderKeepsLists(s: Server, order: seq<FileId>)
    ensures ListsKept(s, SendInOrder(s, order))
  {
    if order != [] {
      var s1, f := SendInOrder(s, order[..|order| - 1]), order[|order| - 1];
      SendInOrderKeepsLists(s, order[..|order| - 1]);
      if f in s1.open {
        BroadcastKeepsLists(s1, s1.open[f].connections, Changes(s1.open[f].dataGen, s1.open[f].pending));
      }
    }
  }

  lemma FlushKeepsLists(s: Server, ops: seq<DocOp>, order: seq<FileId>)
    ensures ListsKept(s, Flush(s, ops, order))
  {
    OpsKeepLists(s, ops);
    SendInOrderKeepsLists(ApplyOps(s, ops), order);
  }

  // Opening and closing

  lemma EnterRefsHeld(s: Server, f: FileId)
    requires RefsHeld(s)
    ensures var s' := EnterDocument(s, f);
      && RefsHeld(s') && s'.clients == s.clients && s'.open.Keys == s.open.Keys + {f}
      && forall g :: SubsOf(s', g) == SubsOf(s, g)
  {
    var s' := EnterDocument(s, f);
    forall g ensures RefCount(s', g) == (if g in s'.open then 1 else 0) {
      assert RefCount(s, g) == (if g in s.open then 1 else 0);
    }
  }

  lemma LoadHeld(s: Server, f: FileId, loaded: Doc)
    ensures var s' := LoadDocument(s, f, loaded); s' == s.(docs := s'.docs)
  {
  }

  lemma OpenAdds(s: Server, f: FileId, docId: DocId, conn: ConnId, loaded: Doc)
    requires Held(s) && conn in s.clients
    ensures var s' := OpenDocumentForClient(s, f, docId, conn, loaded);
      && Held(s')
      && SubsOf(s', f) == SubsOf(s, f) + [Sub(conn, docId)]
      && ClientDocs(s', conn) == ClientDocs(s, conn) + [ClientDoc(f, docId)]
      && (forall g :: g != f ==> SubsOf(s', g) == SubsOf(s, g))
      && (forall c :: c != conn ==> ClientDocs(s', c) == ClientDocs(s, c))
  {
    var s1 := LoadDocument(s, f, loaded);
    LoadHeld(s, f, loaded);
    assert RefsHeld(s1);
    EnterRefsHeld(s1, f);
    hide LoadDocument, EnterDocument, StateOf;
    var s2, s' := EnterDocument(s1, f), OpenDocumentForClient(s, f, docId, conn, loaded);
    assert forall g :: g != f ==> SubsOf(s', g) == SubsOf(s2, g);
    assert RefsHeld(s');
    hide OpenDocumentForClient, RefsHeld;
    forall g | g in s'.open ensures s'.open[g].connections != [] {
      assert SubsOf(s', g) == s'.open[g].connections;
      assert g != f ==> SubsOf(s', g) == SubsOf(s, g);
    }
  }

  lemma OpenCounts(s: Server, f: FileId, docId: DocId, conn: ConnId, loaded: Doc)
    requires Balanced(s) && Held(s) && conn in s.clients
    ensures Balanced(OpenDocumentForClient(s, f, docId, conn, loaded))
    ensures Held(OpenDocumentForClient(s, f, docId, conn, loaded))
  {
    OpenAdds(s, f, docId, conn, loaded);
    hide OpenDocumentForClient, Held, SubsOf, ClientDocs;
    var s' := OpenDocumentForClient(s, f, docId, conn, loaded);
    assert SubsOf(s', f)[..|SubsOf(s, f)|] == SubsOf(s, f);
    assert ClientDocs(s', conn)[..|ClientDocs(s, conn)|] == ClientDocs(s, conn);
    forall g, c ensures ConnCount(SubsOf(s', g), c) == FileCount(ClientDocs(s', c), g) {
      assert ConnCount(SubsOf(s, g), c) == FileCount(ClientDocs(s, c), g);
    }
  }

  lemma DropConnectionCounts(s: Server, f: FileId, conn: ConnId, linked: bool)
    requires Held(s)
    ensures var s' := DropConnection(s, f, conn, linked);
      && Held(s') && s'.clients == s.clients
      && SubsOf(s', f) == DropSub(SubsOf(s, f), conn)
      && forall g :: g != f ==> SubsOf(s', g) == SubsOf(s, g)
  {
  }

  lemma CloseCounts(s: Server, docId: DocId, conn: ConnId, linked: bool)
    requires Balanced(s) && Held(s)
    ensures Balanced(Close(s, docId, conn, linked)) && Held(Close(s, docId, conn, linked))
  {
    var found := GetDocumentForClient(s, docId, conn);
    if found.Some? {
      var f := found.value;
      var s' := Close(s, docId, conn, linked);
      DropConnectionCounts(s, f, conn, linked);
      assert forall g :: SubsOf(s', g) == SubsOf(DropConnection(s, f, conn, linked), g);
      assert ClientDocs(s', conn) == DropFile(ClientDocs(s, conn), f);
      assert forall c :: c != conn ==> ClientDocs(s', c) == ClientDocs(s, c);
      assert Held(s');
      hide Close, DropConnection, DropSub, DropFile, GetDocumentForClient, Held, ConnCount, FileCount;
      forall g, c ensures ConnCount(SubsOf(s', g), c) == FileCount(ClientDocs(s', c), g) {
        assert ConnCount(SubsOf(s, g), c) == FileCount(ClientDocs(s, c), g);
        DropSubCounts(SubsOf(s, f), conn, c);
        DropFileCounts(ClientDocs(s, conn), f, g);
      }
    }
  }

  lemma {:induction false} DropAllCounts(s: Server, conn: ConnId, list: seq<ClientDoc>, linked: set<FileId>)
    requires Held(s)
    ensures var s' := DropAll(s, conn, list, linked);
      && Held(s') && s'.clients == s.clients
      && forall g, c :: ConnCount(SubsOf(s', g), c) == Less(ConnCount(SubsOf(s, g), c), if c == conn then FileCount(list, g) else 0)
  {
    if list != [] {
      var init, f := list[..|list| - 1], list[|list| - 1].file;
      DropAllCounts(s, conn, init, linked);
      var s1 := DropAll(s, conn, init, linked);
      DropConnectionCounts(s1, f, conn, f in linked);
      forall c {
        DropSubCounts(SubsOf(s1, f), conn, c);
      }
      hide DropConnection, DropSub, ConnCount, Held;
    } else {
      hide ConnCount;
    }
  }

  lemma DisconnectCounts(s: Server, conn: ConnId, linked: set<FileId>)
    requires Balanced(s) && Held(s)
    ensures Balanced(Disconnect(s, conn, linked)) && Held(Disconnect(s, conn, linked))
  {
    if conn in s.clients {
      DropAllCounts(s, conn, s.clients[conn], linked);
      var s1 := DropAll(s, conn, s.clients[conn], linked);
      var s' := Disconnect(s, conn, linked);
      hide DropAll, ConnCount;
      forall g, c ensures ConnCount(SubsOf(s', g), c) == FileCount(ClientDocs(s', c), g) {
        assert ConnCount(SubsOf(s, g), c) == FileCount(ClientDocs(s, c), g);
        assert SubsOf(s', g) == SubsOf(s1, g);
      }
    }
  }

  /** A lost connection leaves no subscription behind, however often it opened a document. */
  lemma LostLeavesNothing(s: Server, conn: ConnId, linked: set<FileId>, g: FileId)
    requires Balanced(s) && Held(s)
    ensures ConnCount(SubsOf(Disconnect(s, conn, linked), g), conn) == 0
  {
    DisconnectCounts(s, conn, linked);
    var s' := Disconnect(s, conn, linked);
    assert ConnCount(SubsOf(s', g), conn) == FileCount(ClientDocs(s', conn), g);
    assert conn !in s'.clients;
  }

  lemma {:induction false} TellRemovedCounts(s: Server, f: FileId, subs: seq<Sub>)
    ensures var s' := TellRemoved(s, f, subs);
      && s' == s.(clients := s'.clients, wires := s'.wires) && s'.clients.Keys == s.clients.Keys
      && forall g, c :: FileCount(ClientDocs(s', c), g) == Less(FileCount(ClientDocs(s, c), g), if g == f then ConnCount(subs, c) else 0)
  {
    if subs != [] {
      var init, last := subs[..|subs| - 1], subs[|subs| - 1];
      TellRemovedCounts(s, f, init);
      var s1 := TellRemoved(s, f, init);
      var s' := TellRemoved(s, f, subs);
      forall g {
        DropFileCounts(ClientDocs(s1, last.conn), f, g);
      }
      assert last.conn in s1.clients ==> ClientDocs(s', last.conn) == DropFile(ClientDocs(s1, last.conn), f);
      assert forall c :: c != last.conn ==> ClientDocs(s', c) == ClientDocs(s1, c);
      hide DropFile, TellRemoved;
    }
  }

  lemma RemovedCounts(s: Server, f: FileId, linked: bool)
    requires Balanced(s) && Held(s)
    ensures Balanced(HandleDocumentRemoved(s, f, linked)) && Held(HandleDocumentRemoved(s, f, linked))
  {
    if f in s.open {
      TellRemovedCounts(s, f, s.open[f].connections);
      var s' := HandleDocumentRemoved(s, f, linked);
      var s1 := TellRemoved(s, f, s.open[f].connections);
      assert Held(s');
      assert forall g :: SubsOf(s', g) == if g == f then [] else SubsOf(s, g);
      hide TellRemoved, FileCount, Held;
      forall g, c ensures ConnCount(SubsOf(s', g), c) == FileCount(ClientDocs(s', c), g) {
        assert ConnCount(SubsOf(s, g), c) == FileCount(ClientDocs(s, c), g);
        assert ClientDocs(s', c) == ClientDocs(s1, c);
      }
    }
  }

  // Runs

  /** All that is asked of a run here: only clients that are connected open documents. */
  ghost predicate Connected(s: Server, e: Event) {
    e.OpenRequest? ==> e.conn in s.clients
  }

  ghost predicate ConnectedRun(events: seq<Event>) {
    events == [] || (ConnectedRun(events[..|events| - 1]) && Connected(Run(events[..|events| - 1]).server, events[|events| - 1]))
  }

  lemma StepCounts(s: Server, e: Event)
    requires Balanced(s) && Held(s) && Connected(s, e)
    ensures Balanced(ServerStep(s, e)) && Held(ServerStep(s, e))
  {
    hide Balanced, Held, ListsKept, Flush;
    match e
    case Connect(conn) => ConnectCounts(s, conn);
    case Lost(conn, linked) => DisconnectCounts(s, conn, linked);
    case OpenRequest(f, docId, conn, loaded) => OpenCounts(s, f, docId, conn, loaded);
    case ChangeRequest(docId, conn, ops, order) =>
      var s1 := Flush(s, ops, order);
      FlushKeepsLists(s, ops, order);
      KeptCounts(s, s1);
      SendKeepsLists(s1, conn, Packet(docId, ChangeOk));
      KeptCounts(s1, Send(s1, conn, Packet(docId, ChangeOk)));
    case UndoRequest(_, _, _, order) =>
      FlushKeepsLists(s, UndoOps(s, e), order);
      KeptCounts(s, Flush(s, UndoOps(s, e), order));
    case Reload(ops, order) =>
      FlushKeepsLists(s, ops, order);
      KeptCounts(s, Flush(s, ops, order));
    case CloseRequest(docId, conn, linked) => CloseCounts(s, docId, conn, linked);
    case Removed(f, linked) => RemovedCounts(s, f, linked);
    case Deliver(_) =>
  }

  lemma SendKeepsLists(s: Server, conn: ConnId, p: Packet)
    ensures ListsKept(s, Send(s, conn, p))
  {
  }

  lemma ConnectCounts(s: Server, conn: ConnId)
    requires Balanced(s) && Held(s)
    ensures Balanced(ServerStep(s, Connect(conn))) && Held(ServerStep(s, Connect(conn)))
  {
    var s' := ServerStep(s, Connect(conn));
    forall f, c ensures ConnCount(SubsOf(s', f), c) == FileCount(ClientDocs(s', c), f) {
      assert SubsOf(s', f) == SubsOf(s, f) && ClientDocs(s', c) == ClientDocs(s, c);
    }
  }

  lemma {:induction false} EveryRunCounts(events: seq<Event>)
    requires ConnectedRun(events)
    ensures Balanced(Run(events).server) && Held(Run(events).server)
  {
    if events == [] {
      assert Held(START.server);
    } else {
      EveryRunCounts(events[..|events| - 1]);
      StepCounts(Run(events[..|events| - 1]).server, events[|events| - 1]);
      hide Balanced, Held, ServerStep;
    }
  }
}
