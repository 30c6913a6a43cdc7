/** What requests do to documents and what clients are told, said without the steps that do it. */
module DocumentEffects {
  import opened DocumentClosing
  import opened DocumentCounts
  import opened DocumentProtocol
  import opened DocumentRuns
  import opened DocumentSync
  import opened Documents
  import opened Options
  import opened Vectors

  // Changes

  function OpOn(d: Doc, op: DocOp, f: FileId): Doc {
    if op.file != f then d
    else match op
      case Modify(_, c, _) => Doc(d.state, Apply(c, d.content))
      case NewState(_, new') => new'
  }

  /** What the operations of a request make of one document. */
  function DocAfter(d: Doc, ops: seq<DocOp>, f: FileId): Doc
    decreases |ops|
  {
    if ops == [] then d else DocAfter(OpOn(d, ops[0], f), ops[1..], f)
  }

  lemma {:induction false} DocAfterSnoc(d: Doc, ops: seq<DocOp>, op: DocOp, f: FileId)
    ensures DocAfter(d, ops + [op], f) == OpOn(DocAfter(d, ops, f), op, f)
    decreases |ops|
  {
    hide OpOn;
    if ops != [] {
      assert (ops + [op])[1..] == ops[1..] + [op];
      DocAfterSnoc(OpOn(d, ops[0], f), ops[1..], op, f);
    }
  }

  lemma {:induction false} BroadcastKeepsDocs(s: Server, subs: seq<Sub>, body: Body)
    ensures Broadcast(s, subs, body).docs == s.docs && Broadcast(s, subs, body).changed == s.changed
  {
    if subs != [] {
      BroadcastKeepsDocs(s, subs[..|subs| - 1], body);
    }
  }

  lemma OpMakes(s: Server, op: DocOp, f: FileId)
    ensures DocOf(ApplyOp(s, op), f) == OpOn(DocOf(s, f), op, f)
  {
    if op.NewState? && op.file in s.open {
      var s1 := s.(docs := s.docs[op.file := op.doc]);
      BroadcastKeepsDocs(s1, s1.open[op.file].connections, StateOf(DocOf(s1, op.file), s1.open[op.file].dataGen));
    }
    hide Apply, StateOf, Broadcast;
  }

  lemma {:induction false} OpsMake(s: Server, ops: seq<DocOp>, f: FileId)
    ensures DocOf(ApplyOps(s, ops), f) == DocAfter(DocOf(s, f), ops, f)
  {
    hide ApplyOp, OpOn;
    if ops != [] {
      var init, last := ops[..|ops| - 1], ops[|ops| - 1];
      OpsMake(s, init, f);
      OpMakes(ApplyOps(s, init), last, f);
      DocAfterSnoc(DocOf(s, f), init, last, f);
      assert init + [last] == ops;
    }
  }

  lemma {:induction false} SendingKeepsDocs(s: Server, order: seq<FileId>)
    ensures SendInOrder(s, order).docs == s.docs
  {
    if order != [] {
      var s1, f := SendInOrder(s, order[..|order| - 1]), order[|order| - 1];
      SendingKeepsDocs(s, order[..|order| - 1]);
      if f in s1.open {
        BroadcastKeepsDocs(s1, s1.open[f].connections, Changes(s1.open[f].dataGen, s1.open[f].pending));
      }
    }
  }

  /** What waits for a document that is open, and its generation, after the operations of a request:
      a change waits if the document is loaded when it is made or if it comes from a link, and a new
      state takes a generation. */
  function InfoAfter(info: Info, d: Doc, ops: seq<DocOp>, f: FileId): Info
    decreases |ops|
  {
    if ops == [] then info
    else InfoAfter(InfoOn(info, d, ops[0], f), OpOn(d, ops[0], f), ops[1..], f)
  }

  function InfoOn(info: Info, d: Doc, op: DocOp, f: FileId): Info {
    if op.file != f then info
    else match op
      case Modify(_, c, fromLink) =>
        if d.state.Loaded? || fromLink then Info(info.dataGen, info.connections, info.pending + [c]) else info
      case NewState(_, _) => Info(info.dataGen + 1, info.connections, info.pending)
  }

  lemma {:induction false} InfoAfterSnoc(info: Info, d: Doc, ops: seq<DocOp>, op: DocOp, f: FileId)
    ensures InfoAfter(info, d, ops + [op], f) == InfoOn(InfoAfter(info, d, ops, f), DocAfter(d, ops, f), op, f)
    decreases |ops|
  {
    hide OpOn, InfoOn;
    if ops != [] {
      assert (ops + [op])[1..] == ops[1..] + [op];
      InfoAfterSnoc(InfoOn(info, d, ops[0], f), OpOn(d, ops[0], f), ops[1..], op, f);
    }
  }

  lemma OpReports(s: Server, op: DocOp, f: FileId)
    requires f in s.open
    ensures var s' := ApplyOp(s, op);
      && f in s'.open && s'.open[f] == InfoOn(s.open[f], DocOf(s, f), op, f)
      && (op.Modify? && op.file == f && (DocOf(s, f).state.Loaded? || op.fromLink) ==> f in s'.changed)
      && (f in s.changed ==> f in s'.changed)
  {
    hide Apply;
    if op.NewState? && op.file in s.open {
      var s1 := s.(docs := s.docs[op.file := op.doc]);
      BroadcastKeepsDocs(s1, s1.open[op.file].connections, StateOf(DocOf(s1, op.file), s1.open[op.file].dataGen));
    }
    hide StateOf, Broadcast;
  }

  lemma {:induction false} OpsReport(s: Server, ops: seq<DocOp>, f: FileId)
    requires f in s.open
    ensures f in ApplyOps(s, ops).open && ApplyOps(s, ops).open[f] == InfoAfter(s.open[f], DocOf(s, f), ops, f)
  {
    hide ApplyOp, OpOn, InfoOn;
    if ops != [] {
      var init, last := ops[..|ops| - 1], ops[|ops| - 1];
      OpsReport(s, init, f);
      OpReports(ApplyOps(s, init), last, f);
      OpsMake(s, init, f);
      InfoAfterSnoc(s.open[f], DocOf(s, f), init, last, f);
      assert init + [last] == ops;
    }
  }

  /** A flush empties what waits for the flagged documents that are loaded, which takes a generation
      each, and leaves what waits for all others. */
  lemma {:induction false} FlushEmpties(s: Server, order: seq<FileId>, f: FileId)
    requires f in s.open && forall i, j :: 0 <= i < j < |order| ==> order[i] != order[j]
    ensures f in SendInOrder(s, order).open
    ensures SendInOrder(s, order).open[f] ==
      if f in order && DocOf(s, f).state.Loaded? then Info(s.open[f].dataGen + 1, s.open[f].connections, []) else s.open[f]
  {
    if order != [] {
      var init, last := order[..|order| - 1], order[|order| - 1];
      FlushEmpties(s, init, f);
      SendingKeepsDocs(s, init);
      assert last !in init && forall x :: x in order <==> x in init || x == last;
      hide SendInOrder, Broadcast;
      SendsOne(s, order, f);
    }
  }

  lemma SendsOne(s: Server, order: seq<FileId>, f: FileId)
    requires order != [] && f in SendInOrder(s, order[..|order| - 1]).open
    ensures var s1, last := SendInOrder(s, order[..|order| - 1]), order[|order| - 1];
      && f in SendInOrder(s, order).open
      && SendInOrder(s, order).open[f] ==
        if f == last && DocOf(s1, f).state.Loaded? then Info(s1.open[f].dataGen + 1, s1.open[f].connections, []) else s1.open[f]
  {
    hide Broadcast;
  }

  /** A change request that is accepted does all its operations, and the client is told last of
      all; one that is not changes nothing and tells nobody anything. */
  lemma ChangeTakesEffect(s: Server, docId: DocId, conn: ConnId, ops: seq<DocOp>, order: seq<FileId>, f: FileId)
    ensures var s' := ServerStep(s, ChangeRequest(docId, conn, ops, order));
      if Accepts(s, docId, conn) then
        && DocOf(s', f) == DocAfter(DocOf(s, f), ops, f)
        && Wire(s, conn) < Wire(s', conn) && Wire(s', conn)[|Wire(s', conn)| - 1] == Packet(docId, ChangeOk)
      else s' == s
  {
    OpsMake(s, ops, f);
    SendingKeepsDocs(ApplyOps(s, ops), order);
    FlushGrows(s, ops, order);
    hide ApplyOps, SendInOrder, DocAfter, Accepts;
  }

  /** Undo does its operations when the client has the document. */
  lemma UndoTakesEffect(s: Server, docId: DocId, conn: ConnId, ops: seq<DocOp>, order: seq<FileId>, f: FileId)
    ensures DocOf(ServerStep(s, UndoRequest(docId, conn, ops, order)), f)
      == if GetDocumentForClient(s, docId, conn).Some? then DocAfter(DocOf(s, f), ops, f) else DocOf(s, f)
  {
    var e := UndoRequest(docId, conn, ops, order);
    OpsMake(s, UndoOps(s, e), f);
    SendingKeepsDocs(ApplyOps(s, UndoOps(s, e)), order);
    hide ApplyOps, SendInOrder, GetDocumentForClient;
  }

  /** In every run the change requests accepted are those under an id the client has. */
  lemma AcceptedInRuns(events: seq<Event>, docId: DocId, conn: ConnId)
    requires ConnectedRun(events)
    ensures var s := Run(events).server;
      && (Accepts(s, docId, conn) <==> exists f :: ClientDoc(f, docId) in ClientDocs(s, conn))
      && (GetDocumentForClient(s, docId, conn).Some? <==> exists f :: ClientDoc(f, docId) in ClientDocs(s, conn))
      && (GetDocumentForClient(s, docId, conn).Some? ==>
            ClientDoc(GetDocumentForClient(s, docId, conn).value, docId) in ClientDocs(s, conn))
  {
    var s := Run(events).server;
    EveryRunCounts(events);
    hide Run, ConnectedRun, Held;
    var list := ClientDocs(s, conn);
    var k := FirstDoc(list, docId);
    if k < |list| {
      var f := list[k].file;
      assert ClientDoc(f, docId) == list[k];
      FileCountNone(list, f);
      assert ConnCount(SubsOf(s, f), conn) == FileCount(list, f);
      ConnCountNone(SubsOf(s, f), conn);
    } else {
      assert forall e :: e in list ==> e.docId != docId;
    }
  }

  // Opening

  /** A client that opens a file is the last to subscribe to it and has it last in its list; it is
      sent the document as it is, or as it was loaded, and nobody else anything. */
  lemma OpenEnters(s: Server, f: FileId, docId: DocId, conn: ConnId, loaded: Doc)
    requires conn in s.clients
    ensures var s' := OpenDocumentForClient(s, f, docId, conn, loaded);
      && DocOf(s', f) == (if f in s.docs then s.docs[f] else loaded) && f in s'.open
      && (forall g :: g != f ==> DocOf(s', g) == DocOf(s, g) && (g in s'.open <==> g in s.open) && SubsOf(s', g) == SubsOf(s, g))
      && SubsOf(s', f) == SubsOf(s, f) + [Sub(conn, docId)]
    ensures Told(s, OpenDocumentForClient(s, f, docId, conn, loaded), f, docId, conn)
  {
    EnteredIs(s, f, loaded);
    var s1 := EnterDocument(LoadDocument(s, f, loaded), f);
    hide EnterDocument, LoadDocument;
    SubscribedIs(s1, f, docId, conn);
    hide Subscribe;
  }

  ghost predicate Told(s: Server, s': Server, f: FileId, docId: DocId, conn: ConnId)
    requires f in s'.open
  {
    && ClientDocs(s', conn) == ClientDocs(s, conn) + [ClientDoc(f, docId)]
    && (var d := DocOf(s', f);
        Wire(s', conn) == Wire(s, conn) + [Packet(docId, State(s'.open[f].dataGen, d.state, if d.state.Loaded? then d.content else map[]))])
    && forall c :: c != conn ==> Wire(s', c) == Wire(s, c) && ClientDocs(s', c) == ClientDocs(s, c)
  }

  lemma EnteredIs(s: Server, f: FileId, loaded: Doc)
    ensures var s1 := EnterDocument(LoadDocument(s, f, loaded), f);
      && s1.clients == s.clients && s1.wires == s.wires && f in s1.open
      && DocOf(s1, f) == (if f in s.docs then s.docs[f] else loaded)
      && (forall g :: g != f ==> DocOf(s1, g) == DocOf(s, g) && (g in s1.open <==> g in s.open))
      && forall g :: SubsOf(s1, g) == SubsOf(s, g)
  {
    var s0 := LoadDocument(s, f, loaded);
    assert s0.open == s.open && s0.clients == s.clients && s0.wires == s.wires;
    assert forall g :: DocOf(s0, g) == if g == f && f !in s.docs then loaded else DocOf(s, g);
    hide LoadDocument;
    assert EnterDocument(s0, f).docs == s0.docs;
  }

  lemma SubscribedIs(s: Server, f: FileId, docId: DocId, conn: ConnId)
    requires f in s.open && conn in s.clients
    ensures var s' := Subscribe(s, f, docId, conn);
      && s'.docs == s.docs && s'.open.Keys == s.open.Keys
      && (forall g :: SubsOf(s', g) == SubsOf(s, g) + if g == f then [Sub(conn, docId)] else [])
      && Told(s, s', f, docId, conn)
  {
  }

  // Closing

  /** The documents that are lost are those that were closed and nobody links. */
  ghost predicate ClosedGo(s: Server, s': Server, linked: set<FileId>) {
    && s'.open.Keys <= s.open.Keys
    && forall g :: (g in s'.docs <==> g in s.docs && (g in s'.open || g !in s.open || g in linked)) && (g in s'.docs ==> s'.docs[g] == s.docs[g])
  }

  ghost function FileIf(linked: bool, f: FileId): set<FileId> {
    if linked then {f} else {}
  }

  lemma DroppingLoses(s: Server, f: FileId, conn: ConnId, linked: set<FileId>)
    ensures ClosedGo(s, DropConnection(s, f, conn, f in linked), linked)
  {
    hide DropSub;
  }

  lemma LosingTwice(s: Server, s1: Server, s2: Server, linked: set<FileId>)
    requires ClosedGo(s, s1, linked) && ClosedGo(s1, s2, linked)
    ensures ClosedGo(s, s2, linked)
  {
  }

  lemma CloseDrops(s: Server, docId: DocId, conn: ConnId, linked: bool)
    ensures match GetDocumentForClient(s, docId, conn)
      case None => Close(s, docId, conn, linked) == s
      case Some(f) =>
        var s', s1 := Close(s, docId, conn, linked), DropConnection(s, f, conn, linked);
        s'.open == s1.open && s'.docs == s1.docs
  {
    hide DropConnection, DropFile, GetDocumentForClient, Wire;
  }

  lemma CloseLoses(s: Server, docId: DocId, conn: ConnId, linked: bool)
    ensures var found := GetDocumentForClient(s, docId, conn);
      ClosedGo(s, Close(s, docId, conn, linked), if found.Some? then FileIf(linked, found.value) else {})
  {
    CloseDrops(s, docId, conn, linked);
    hide Close, GetDocumentForClient, DropConnection;
    match GetDocumentForClient(s, docId, conn)
    case None =>
    case Some(f) => DroppingLoses(s, f, conn, FileIf(linked, f));
  }

  /** The client loses one entry, the first of its list for the file, and is told so; other lists and
      other connections notice nothing. */
  lemma CloseForgets(s: Server, docId: DocId, conn: ConnId, linked: bool, f: FileId)
    requires GetDocumentForClient(s, docId, conn) == Some(f)
    ensures var s', list := Close(s, docId, conn, linked), ClientDocs(s, conn);
      && (exists k :: && 0 <= k < |list| && list[k].file == f && (forall j :: 0 <= j < k ==> list[j].file != f)
                      && multiset(ClientDocs(s', conn)) + multiset{list[k]} == multiset(list))
      && Wire(s', conn) == Wire(s, conn) + [Packet(docId, Closed)]
      && forall c :: c != conn ==> ClientDocs(s', c) == ClientDocs(s, c) && Wire(s', c) == Wire(s, c)
  {
    var list := ClientDocs(s, conn);
    var k := FirstFile(list, f);
    assert list[FirstDoc(list, docId)].file == f;
    ForgetsOne(list, k);
    DropConnectionSends(s, f, conn, linked);
    hide DropConnection, FirstFile, FirstDoc, Wire;
  }

  lemma ForgetsOne(list: seq<ClientDoc>, k: nat)
    requires k < |list|
    ensures multiset(RemoveIndexQuick(list, k)) + multiset{list[k]} == multiset(list)
  {
    var last := |list| - 1;
    var moved := list[k := list[last]];
    assert moved == moved[..last] + [moved[last]];
    assert multiset(moved) == multiset(list) - multiset{list[k]} + multiset{list[last]};
  }

  lemma DropConnectionSends(s: Server, f: FileId, conn: ConnId, linked: bool)
    ensures DropConnection(s, f, conn, linked).wires == s.wires && DropConnection(s, f, conn, linked).clients == s.clients
  {
  }

  lemma {:induction false} DropAllLoses(s: Server, conn: ConnId, list: seq<ClientDoc>, linked: set<FileId>)
    ensures ClosedGo(s, DropAll(s, conn, list, linked), linked)
  {
    if list != [] {
      var init, f := list[..|list| - 1], list[|list| - 1].file;
      DropAllLoses(s, conn, init, linked);
      var s1 := DropAll(s, conn, init, linked);
      DroppingLoses(s1, f, conn, linked);
      hide DropConnection, ClosedGo;
      LosingTwice(s, s1, DropAll(s, conn, list, linked), linked);
    }
  }

  lemma {:induction false} DropAllSends(s: Server, conn: ConnId, list: seq<ClientDoc>, linked: set<FileId>)
    ensures DropAll(s, conn, list, linked).wires == s.wires && DropAll(s, conn, list, linked).clients == s.clients
  {
    if list != [] {
      var init, f := list[..|list| - 1], list[|list| - 1].file;
      DropAllSends(s, conn, init, linked);
      DropConnectionSends(DropAll(s, conn, init, linked), f, conn, f in linked);
    }
  }

  /** A lost client is gone, nothing is sent to anyone, and of its documents those go that are
      closed and that nobody links. */
  lemma DisconnectLoses(s: Server, conn: ConnId, linked: set<FileId>)
    ensures ClosedGo(s, Disconnect(s, conn, linked), linked)
    ensures Disconnect(s, conn, linked).clients == s.clients - {conn} && Disconnect(s, conn, linked).wires == s.wires
  {
    DropAllLoses(s, conn, ClientDocs(s, conn), linked);
    DropAllSends(s, conn, ClientDocs(s, conn), linked);
    hide DropAll;
  }

  lemma RemovedLoses(s: Server, f: FileId, linked: bool)
    ensures ClosedGo(s, HandleDocumentRemoved(s, f, linked), FileIf(linked, f))
    ensures f !in HandleDocumentRemoved(s, f, linked).open
  {
    TellRemovedTells(s, f, SubsOf(s, f));
    hide TellRemoved, Quiet;
  }

  /** Which subscriptions are of a connection. */
  ghost function OfConn(subs: seq<Sub>, conn: ConnId): (r: seq<bool>)
    ensures |r| == |subs|
  {
    seq(|subs|, k requires 0 <= k < |subs| => subs[k].conn == conn)
  }

  /** A closing packet for each of those. */
  ghost function ClosedPackets(subs: seq<Sub>, conn: ConnId, at: seq<nat>): (r: seq<Packet>)
    requires SetAt(at, OfConn(subs, conn))
  {
    SetAtInside(at, OfConn(subs, conn));
    seq(|at|, j requires 0 <= j < |at| => Packet(subs[at[j]].docId, Closed))
  }

  lemma ClosedSnoc(init: seq<nat>, subs: seq<Sub>, conn: ConnId)
    requires subs != [] && SetAt(init, OfConn(subs[..|subs| - 1], conn))
    ensures var n := |subs| - 1; var at := if subs[n].conn == conn then init + [n] else init;
      && SetAt(at, OfConn(subs, conn))
      && ClosedPackets(subs, conn, at)
        == ClosedPackets(subs[..n], conn, init) + if subs[n].conn == conn then [Packet(subs[n].docId, Closed)] else []
  {
    var n := |subs| - 1;
    assert OfConn(subs, conn) == OfConn(subs[..n], conn) + [subs[n].conn == conn];
    SetAtSnoc(init, OfConn(subs[..n], conn), subs[n].conn == conn);
    SetAtInside(init, OfConn(subs[..n], conn));
    hide SetAt;
  }

  lemma TellsOne(s: Server, f: FileId, subs: seq<Sub>, conn: ConnId)
    requires subs != []
    ensures var init, last := TellRemoved(s, f, subs[..|subs| - 1]), subs[|subs| - 1];
      && TellRemoved(s, f, subs).clients.Keys == init.clients.Keys
      && Wire(TellRemoved(s, f, subs), conn)
        == Wire(init, conn) + if last.conn == conn && conn in init.clients then [Packet(last.docId, Closed)] else []
  {
    hide DropFile;
  }

  lemma {:induction false} TellRemovedSends(s: Server, f: FileId, subs: seq<Sub>, conn: ConnId) returns (at: seq<nat>)
    ensures SetAt(at, OfConn(subs, conn))
    ensures var s' := TellRemoved(s, f, subs);
      && s'.clients.Keys == s.clients.Keys
      && Wire(s', conn) == Wire(s, conn) + if conn in s.clients then ClosedPackets(subs, conn, at) else []
  {
    if subs == [] {
      at := [];
      NoneSet();
      assert OfConn(subs, conn) == [] && ClosedPackets(subs, conn, at) == [];
    } else {
      var n := |subs| - 1;
      var init := TellRemovedSends(s, f, subs[..n], conn);
      at := if subs[n].conn == conn then init + [n] else init;
      ClosedSnoc(init, subs, conn);
      TellsOne(s, f, subs, conn);
      hide *;
      if conn in s.clients && subs[n].conn == conn {
        Regroup(Wire(s, conn), ClosedPackets(subs[..n], conn, init), [Packet(subs[n].docId, Closed)]);
      }
    }
  }

  lemma Regroup<T>(a: seq<T>, b: seq<T>, c: seq<T>)
    ensures a + (b + c) == (a + b) + c
  {
  }

  /** When a file is removed every client hears, in order, that each of its documents of the file
      is closed, and nothing else is sent. */
  lemma RemovedIsTold(s: Server, f: FileId, linked: bool, conn: ConnId) returns (at: seq<nat>)
    requires f in s.open
    ensures SetAt(at, OfConn(s.open[f].connections, conn))
    ensures Wire(HandleDocumentRemoved(s, f, linked), conn)
      == Wire(s, conn) + if conn in s.clients then ClosedPackets(s.open[f].connections, conn, at) else []
  {
    at := TellRemovedSends(s, f, s.open[f].connections, conn);
    hide TellRemoved, ClosedPackets, SetAt;
  }
}
