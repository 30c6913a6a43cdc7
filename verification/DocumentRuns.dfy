/** Whole runs of the document server and the editors of its clients. */
module DocumentRuns {
  import opened DocumentClosing
  import opened DocumentProtocol
  import opened DocumentSync
  import opened Documents
  import opened Options

  /** read counts the packets of a connection that its client has taken; editors holds what
      each document id of a client has made of them. */
  datatype World = World(server: Server, read: map<ConnId, nat>, editors: map<Sub, View>)

  datatype Event =
    | Connect(conn: ConnId)
    | Lost(conn: ConnId, stillLinked: set<FileId>)
    | OpenRequest(file: FileId, docId: DocId, conn: ConnId, loaded: Doc)
    | ChangeRequest(docId: DocId, conn: ConnId, ops: seq<DocOp>, order: seq<FileId>)
    | UndoRequest(docId: DocId, conn: ConnId, ops: seq<DocOp>, order: seq<FileId>)
    | Reload(ops: seq<DocOp>, order: seq<FileId>)
    | CloseRequest(docId: DocId, conn: ConnId, linked: bool)
    | Removed(file: FileId, linked: bool)
    | Deliver(conn: ConnId)

  const START := World(Server(map[], map[], map[], {}, map[], map[]), map[], map[])

  /** The request is carried out only when the client has the document and subscribes to it. */
  predicate Accepts(s: Server, docId: DocId, conn: ConnId) {
    var found := GetDocumentForClient(s, docId, conn);
    found.Some? && FirstSub(s.open[found.value].connections, conn) < |s.open[found.value].connections|
  }

  function Flush(s: Server, ops: seq<DocOp>, order: seq<FileId>): Server {
    SendPendingChanges(ApplyOps(s, ops), order)
  }

  /** Undo looks the document up but does not ask who subscribes, and flushes in any case. */
  function UndoOps(s: Server, e: Event): seq<DocOp>
    requires e.UndoRequest?
  {
    if GetDocumentForClient(s, e.docId, e.conn).Some? then e.ops else []
  }

  function ServerStep(s: Server, e: Event): Server {
    match e
    case Connect(conn) => if conn in s.clients then s else s.(clients := s.clients[conn := []])
    case Lost(conn, linked) => Disconnect(s, conn, linked)
    case OpenRequest(f, docId, conn, loaded) => OpenDocumentForClient(s, f, docId, conn, loaded)
    case ChangeRequest(docId, conn, ops, order) =>
      if Accepts(s, docId, conn) then Send(Flush(s, ops, order), conn, Packet(docId, ChangeOk)) else s
    case UndoRequest(_, _, _, order) => Flush(s, UndoOps(s, e), order)
    case Reload(ops, order) => Flush(s, ops, order)
    case CloseRequest(docId, conn, linked) => Close(s, docId, conn, linked)
    case Removed(f, linked) => HandleDocumentRemoved(s, f, linked)
    case Deliver(_) => s
  }

  function ReadOf(w: World, conn: ConnId): nat {
    if conn in w.read then w.read[conn] else 0
  }

  function EditorOf(w: World, sub: Sub): View {
    if sub in w.editors then w.editors[sub] else NEW_EDITOR
  }

  /** A client takes its next packet and hands it to the editor it names. */
  function DeliverNext(w: World, conn: ConnId): World {
    var wire, n := Wire(w.server, conn), ReadOf(w, conn);
    if n < |wire| then
      var sub := Sub(conn, wire[n].docId);
      w.(read := w.read[conn := n + 1], editors := w.editors[sub := Receive(EditorOf(w, sub), wire[n], wire[n].docId)])
    else w
  }

  function Step(w: World, e: Event): World {
    if e.Deliver? then DeliverNext(w, e.conn) else w.(server := ServerStep(w.server, e))
  }

  /** Ids are fresh (Editor/EditorContainer.cpp), and a flush visits what changed. */
  ghost predicate Allowed(s: Server, e: Event) {
    match e
    case OpenRequest(f, docId, conn, _) => MayOpen(s, docId, conn)
    case ChangeRequest(docId, conn, ops, order) => Accepts(s, docId, conn) ==> Enumerates(order, ApplyOps(s, ops).changed)
    case UndoRequest(_, _, _, order) => Enumerates(order, ApplyOps(s, UndoOps(s, e)).changed)
    case Reload(ops, order) => Enumerates(order, ApplyOps(s, ops).changed)
    case _ => true
  }

  /** A document nobody has is on track; after that only its new states count. */
  ghost function TrackStep(s: Server, e: Event, on: iset<FileId>): iset<FileId> {
    match e
    case ChangeRequest(docId, conn, ops, _) =>
      if Accepts(s, docId, conn) then TrackOps(s, ops, on + Unopened(s)) else on + Unopened(s)
    case UndoRequest(_, _, _, _) => TrackOps(s, UndoOps(s, e), on + Unopened(s))
    case Reload(ops, _) => TrackOps(s, ops, on + Unopened(s))
    case _ => on + Unopened(s)
  }

  function Run(events: seq<Event>): World {
    if events == [] then START else Step(Run(events[..|events| - 1]), events[|events| - 1])
  }

  /** The documents whose latest new state, since somebody has them, was not overtaken by waiting
      changes that matter. */
  ghost function OnTrack(events: seq<Event>): iset<FileId> {
    if events == [] then iset{}
    else TrackStep(Run(events[..|events| - 1]).server, events[|events| - 1], OnTrack(events[..|events| - 1]))
  }

  /** The operations an event does. */
  function OpsOf(s: Server, e: Event): seq<DocOp> {
    match e
    case ChangeRequest(docId, conn, ops, _) => if Accepts(s, docId, conn) then ops else []
    case UndoRequest(_, _, _, _) => UndoOps(s, e)
    case Reload(ops, _) => ops
    case _ => []
  }

  /** Exactly when a document is on track: nobody has it, or the last new state it got was harmless
      to those who do. */
  lemma OnTrackExactly(events: seq<Event>, e: Event, f: FileId)
    ensures var s := Run(events).server; var ops := OpsOf(s, e);
      && (f !in s.open ==> f in OnTrack(events + [e]))
      && (f in s.open && (forall k :: 0 <= k < |ops| ==> !BringsState(ops[k], f)) ==> (f in OnTrack(events + [e]) <==> f in OnTrack(events)))
      && forall k :: f in s.open && 0 <= k < |ops| && BringsState(ops[k], f) && (forall j :: k < j < |ops| ==> !BringsState(ops[j], f)) ==>
           && f in ApplyOps(s, ops[..k]).open
           && (f in OnTrack(events + [e]) <==> Harmless(ApplyOps(s, ops[..k]).open[f].pending, ops[k].doc))
  {
    var s := Run(events).server;
    var ops, on := OpsOf(s, e), OnTrack(events) + Unopened(s);
    assert (events + [e])[..|events|] == events;
    assert OnTrack(events + [e]) == TrackOps(s, ops, on);
    hide OnTrack, Harmless, ApplyOps, Run;
    if f !in s.open || forall k :: 0 <= k < |ops| ==> !BringsState(ops[k], f) {
      TrackUntouched(s, ops, on, f);
    }
    forall k | f in s.open && 0 <= k < |ops| && BringsState(ops[k], f) && forall j :: k < j < |ops| ==> !BringsState(ops[j], f)
      ensures f in ApplyOps(s, ops[..k]).open
      ensures f in TrackOps(s, ops, on) <==> Harmless(ApplyOps(s, ops[..k]).open[f].pending, ops[k].doc)
    {
      TrackDecided(s, ops, on, f, k);
    }
  }

  ghost predicate AllowedRun(events: seq<Event>) {
    events == [] || (AllowedRun(events[..|events| - 1]) && Allowed(Run(events[..|events| - 1]).server, events[|events| - 1]))
  }

  lemma RunSnoc(events: seq<Event>, n: nat)
    requires n < |events|
    ensures Run(events[..n + 1]) == Step(Run(events[..n]), events[n])
  {
    assert events[..n + 1][..n] == events[..n];
  }

  lemma {:induction false} AllAllowed(events: seq<Event>)
    requires forall k :: 0 <= k < |events| ==> Allowed(Run(events[..k]).server, events[k])
    ensures AllowedRun(events)
  {
    if events != [] {
      var init := events[..|events| - 1];
      assert forall k :: 0 <= k < |init| ==> init[..k] == events[..k];
      hide Run, Allowed;
      AllAllowed(init);
    }
  }

  // The server alone

  lemma FlushKeeps(s: Server, ops: seq<DocOp>, order: seq<FileId>, on: iset<FileId>)
    requires Inv(s, on) && Enumerates(order, ApplyOps(s, ops).changed)
    ensures Inv(Flush(s, ops, order), TrackOps(s, ops, on)) && Flush(s, ops, order).changed == {}
  {
    OpsKeep(s, ops, on);
    SendPendingChangesKeeps(ApplyOps(s, ops), order, TrackOps(s, ops, on));
  }

  /** An answer that editors take no document from changes nothing. */
  lemma AnswerKeeps(s: Server, conn: ConnId, p: Packet, on: iset<FileId>)
    requires Inv(s, on) && s.changed == {} && !Numbered(p.body)
    ensures Inv(Send(s, conn, p), on) && Send(s, conn, p).changed == {}
  {
    var s' := Send(s, conn, p);
    ClosedIsQuiet(s, s', conn, p);
    hide Quiet;
    DroppedKeeps(s, s', on);
  }

  lemma ConnectKeeps(s: Server, conn: ConnId, on: iset<FileId>)
    requires Inv(s, on)
    ensures Inv(s.(clients := s.clients[conn := []]), on)
  {
    var s' := s.(clients := s.clients[conn := []]);
    SameSubscribers(s, s');
    RefsKept(s, s');
    hide Refs, OnlyOnce, Populated, InSync;
    forall g, sub | g in s'.open && sub in s'.open[g].connections
      ensures InSync(Wire(s', sub.conn), sub.docId, DocOf(s', g), s'.open[g], g in s'.changed, g in on)
    {
      assert InSync(Wire(s, sub.conn), sub.docId, DocOf(s, g), s.open[g], g in s.changed, g in on);
    }
  }

  lemma ServerStepKeeps(s: Server, e: Event, on: iset<FileId>)
    requires Inv(s, on) && s.changed == {} && Allowed(s, e)
    ensures Inv(ServerStep(s, e), TrackStep(s, e, on)) && ServerStep(s, e).changed == {}
  {
    UnopenedOnTrack(s, on);
    var on' := on + Unopened(s);
    hide Inv, Enumerates, MayOpen, Unopened;
    match e
    case Connect(conn) => ConnectKeeps(s, conn, on');
    case Lost(conn, linked) => DisconnectKeeps(s, conn, linked, on');
    case OpenRequest(f, docId, conn, loaded) => OpenKeeps(s, f, docId, conn, loaded, on');
    case ChangeRequest(docId, conn, ops, order) =>
      if Accepts(s, docId, conn) {
        FlushKeeps(s, ops, order, on');
        AnswerKeeps(Flush(s, ops, order), conn, Packet(docId, ChangeOk), TrackOps(s, ops, on'));
      }
    case UndoRequest(_, _, _, order) => FlushKeeps(s, UndoOps(s, e), order, on');
    case Reload(ops, order) => FlushKeeps(s, ops, order, on');
    case CloseRequest(docId, conn, linked) => CloseKeeps(s, docId, conn, linked, on');
    case Removed(f, linked) => RemovedKeeps(s, f, linked, on');
    case Deliver(_) =>
  }

  // What was sent stays sent

  ghost predicate Grows(s: Server, s': Server) {
    forall c :: Wire(s, c) <= Wire(s', c)
  }

  lemma GrowsOn(s: Server, s1: Server, s2: Server)
    requires Grows(s, s1) && Grows(s1, s2)
    ensures Grows(s, s2)
  {
    hide Wire;
  }

  lemma {:induction false} BroadcastGrows(s: Server, subs: seq<Sub>, body: Body)
    ensures Grows(s, Broadcast(s, subs, body))
  {
    if subs != [] {
      BroadcastGrows(s, subs[..|subs| - 1], body);
    }
  }

  lemma OpGrows(s: Server, op: DocOp)
    ensures Grows(s, ApplyOp(s, op))
  {
    if op.NewState? && op.file in s.open {
      var s1 := s.(docs := s.docs[op.file := op.doc]);
      var body := StateOf(DocOf(s1, op.file), s.open[op.file].dataGen);
      BroadcastGrows(s1, s.open[op.file].connections, body);
      assert ApplyOp(s, op).wires == Broadcast(s1, s.open[op.file].connections, body).wires;
      forall c ensures Wire(s, c) <= Wire(ApplyOp(s, op), c) {
        assert Wire(s1, c) <= Wire(Broadcast(s1, s.open[op.file].connections, body), c);
      }
    }
  }

  lemma {:induction false} OpsGrow(s: Server, ops: seq<DocOp>)
    ensures Grows(s, ApplyOps(s, ops))
  {
    if ops != [] {
      var s1, op := ApplyOps(s, ops[..|ops| - 1]), ops[|ops| - 1];
      OpsGrow(s, ops[..|ops| - 1]);
      OpGrows(s1, op);
      GrowsOn(s, s1, ApplyOp(s1, op));
    }
  }

  lemma {:induction false} SendInOrderGrows(s: Server, order: seq<FileId>)
    ensures Grows(s, SendInOrder(s, order))
  {
    if order != [] {
      var s1, f := SendInOrder(s, order[..|order| - 1]), order[|order| - 1];
      SendInOrderGrows(s, order[..|order| - 1]);
      if f in s1.open {
        BroadcastGrows(s1, s1.open[f].connections, Changes(s1.open[f].dataGen, s1.open[f].pending));
      }
      GrowsOn(s, s1, SendPendingChangesOf(s1, f));
    }
  }

  lemma FlushGrows(s: Server, ops: seq<DocOp>, order: seq<FileId>)
    ensures Grows(s, Flush(s, ops, order))
  {
    OpsGrow(s, ops);
    SendInOrderGrows(ApplyOps(s, ops), order);
    GrowsOn(s, ApplyOps(s, ops), SendInOrder(ApplyOps(s, ops), order));
  }

  lemma {:induction false} DropAllSendsNothing(s: Server, conn: ConnId, list: seq<ClientDoc>, linked: set<FileId>)
    ensures DropAll(s, conn, list, linked).wires == s.wires
  {
    if list != [] {
      DropAllSendsNothing(s, conn, list[..|list| - 1], linked);
    }
  }

  lemma {:induction false} TellRemovedGrows(s: Server, f: FileId, subs: seq<Sub>)
    ensures Grows(s, TellRemoved(s, f, subs))
  {
    if subs != [] {
      TellRemovedGrows(s, f, subs[..|subs| - 1]);
    }
  }

  lemma SameGrows(s: Server)
    ensures Grows(s, s)
  {
  }

  lemma SendGrows(s: Server, conn: ConnId, p: Packet)
    ensures Grows(s, Send(s, conn, p))
  {
  }

  lemma ConnectGrows(s: Server, conn: ConnId)
    ensures Grows(s, s.(clients := s.clients[conn := []]))
    ensures Grows(s, s)
  {
  }

  lemma OpenGrows(s: Server, f: FileId, docId: DocId, conn: ConnId, loaded: Doc)
    ensures Grows(s, OpenDocumentForClient(s, f, docId, conn, loaded))
  {
  }

  lemma LostGrows(s: Server, conn: ConnId, linked: set<FileId>)
    ensures Grows(s, Disconnect(s, conn, linked))
  {
    DropAllSendsNothing(s, conn, ClientDocs(s, conn), linked);
  }

  lemma CloseGrows(s: Server, docId: DocId, conn: ConnId, linked: bool)
    ensures Grows(s, Close(s, docId, conn, linked))
  {
    hide GetDocumentForClient, DropFile, DropSub;
  }

  lemma RemovedGrows(s: Server, f: FileId, linked: bool)
    ensures Grows(s, HandleDocumentRemoved(s, f, linked))
  {
    TellRemovedGrows(s, f, SubsOf(s, f));
  }

  lemma ServerStepGrows(s: Server, e: Event)
    ensures Grows(s, ServerStep(s, e))
  {
    hide Accepts, Flush, UndoOps, OpenDocumentForClient, Close, Disconnect, HandleDocumentRemoved, Grows;
    match e
    case Connect(conn) => ConnectGrows(s, conn);
    case Lost(conn, linked) => LostGrows(s, conn, linked);
    case OpenRequest(f, docId, conn, loaded) => OpenGrows(s, f, docId, conn, loaded);
    case ChangeRequest(docId, conn, ops, order) =>
      FlushGrows(s, ops, order);
      SendGrows(Flush(s, ops, order), conn, Packet(docId, ChangeOk));
      GrowsOn(s, Flush(s, ops, order), Send(Flush(s, ops, order), conn, Packet(docId, ChangeOk)));
      SameGrows(s);
    case UndoRequest(_, _, _, order) => FlushGrows(s, UndoOps(s, e), order);
    case Reload(ops, order) => FlushGrows(s, ops, order);
    case CloseRequest(docId, conn, linked) => CloseGrows(s, docId, conn, linked);
    case Removed(f, linked) => RemovedGrows(s, f, linked);
    case Deliver(_) => SameGrows(s);
  }

  // The clients too

  function Taken(w: World, conn: ConnId): seq<Packet> {
    if ReadOf(w, conn) <= |Wire(w.server, conn)| then Wire(w.server, conn)[..ReadOf(w, conn)] else []
  }

  function InFlight(w: World, conn: ConnId): seq<Packet> {
    if ReadOf(w, conn) <= |Wire(w.server, conn)| then Wire(w.server, conn)[ReadOf(w, conn)..] else []
  }

  /** Editors are where the packets they took lead. */
  ghost predicate EditorsFollow(w: World) {
    && (forall c :: ReadOf(w, c) <= |Wire(w.server, c)|)
    && forall sub :: EditorOf(w, sub) == Replay(NEW_EDITOR, Taken(w, sub.conn), sub.docId)
  }

  ghost predicate WorldInv(w: World, on: iset<FileId>) {
    Inv(w.server, on) && w.server.changed == {} && EditorsFollow(w)
  }

  lemma ServerStepFollows(w: World, e: Event)
    requires EditorsFollow(w) && !e.Deliver?
    ensures EditorsFollow(Step(w, e))
  {
    ServerStepGrows(w.server, e);
    hide ServerStep, Replay, Wire;
    var w' := Step(w, e);
    forall c ensures ReadOf(w', c) <= |Wire(w'.server, c)| && Taken(w', c) == Taken(w, c) {
      assert Wire(w.server, c) <= Wire(w'.server, c);
    }
  }

  lemma DeliverFollows(w: World, conn: ConnId)
    requires EditorsFollow(w)
    ensures EditorsFollow(DeliverNext(w, conn))
  {
    var wire, n := Wire(w.server, conn), ReadOf(w, conn);
    var w' := DeliverNext(w, conn);
    if n < |wire| {
      assert wire[..n + 1] == wire[..n] + [wire[n]];
      forall sub ensures EditorOf(w', sub) == Replay(NEW_EDITOR, Taken(w', sub.conn), sub.docId) {
        ReplaySnoc(NEW_EDITOR, wire[..n], wire[n], sub.docId);
        hide Replay, Wire;
      }
    }
  }

  /** Every run of opens, changes, undo and redo, reloads, closes, removals, connections lost and
      packets delivered keeps all of it. */
  lemma {:induction false} EveryRunKeeps(events: seq<Event>)
    requires AllowedRun(events)
    ensures WorldInv(Run(events), OnTrack(events))
  {
    if events == [] {
      StartHolds();
    } else {
      var w, e := Run(events[..|events| - 1]), events[|events| - 1];
      EveryRunKeeps(events[..|events| - 1]);
      ServerStepKeeps(w.server, e, OnTrack(events[..|events| - 1]));
      hide Inv, EditorsFollow, ServerStep, TrackStep, DeliverNext, Allowed;
      if e.Deliver? {
        DeliverIsOurs(w.server, e);
        DeliverFollows(w, e.conn);
      } else {
        ServerStepFollows(w, e);
      }
    }
  }

  lemma DeliverIsOurs(s: Server, e: Event)
    requires e.Deliver?
    ensures ServerStep(s, e) == s
  {
  }

  lemma StartHolds()
    ensures WorldInv(START, iset{})
  {
    assert AllInSync(START.server, iset{});
  }

  /** Whatever has happened, the packets a subscriber was sent since it opened are numbered without
      a gap; and if the document is on track the subscriber has the server's document once it takes
      what is on its way. */
  lemma SubscribersConverge(events: seq<Event>, f: FileId, sub: Sub)
    requires AllowedRun(events)
    requires f in Run(events).server.open && sub in Run(events).server.open[f].connections
    ensures var w := Run(events);
      && GensRun(Gens(Wire(w.server, sub.conn), sub.docId), w.server.open[f].dataGen)
      && (f in OnTrack(events) && DocOf(w.server, f).state.Loaded? ==>
            Replay(EditorOf(w, sub), InFlight(w, sub.conn), sub.docId) == View(true, DocOf(w.server, f).content))
  {
    var w, on := Run(events), OnTrack(events);
    EveryRunKeeps(events);
    hide OnTrack;
    assert InSync(Wire(w.server, sub.conn), sub.docId, DocOf(w.server, f), w.server.open[f], f in w.server.changed, f in on);
    ReplaySplit(NEW_EDITOR, Wire(w.server, sub.conn), ReadOf(w, sub.conn), sub.docId);
  }

  /** A document thrown off track is brought back by its next new state, if nothing waits. */
  lemma NewStateRepairs(events: seq<Event>, f: FileId, d: Doc, order: seq<FileId>)
    requires f in Run(events).server.open && Run(events).server.open[f].pending == []
    ensures f in OnTrack(events + [Reload([NewState(f, d)], order)])
  {
    var e := Reload([NewState(f, d)], order);
    assert (events + [e])[..|events|] == events && [NewState(f, d)][..0] == [];
    hide Run;
  }

  // Where it fails

  /** One client has one document open. */
  function One(f: FileId, c: ConnId, d: Doc, info: Info, changed: set<FileId>, wire: seq<Packet>): Server {
    Server(map[f := d], map[f := info], map[c := [ClientDoc(f, 1)]], changed, map[f := 1], map[c := wire])
  }

  function OneInfo(c: ConnId, gen: int, pending: seq<Documents.Change>): Info {
    Info(gen, [Sub(c, 1)], pending)
  }

  const PATH: Path := ["a"]

  function Told(docId: DocId, gen: int, d: Doc): Packet {
    Packet(docId, StateOf(d, gen))
  }

  lemma OneOpened(f: FileId, c: ConnId, d: Doc)
    ensures ServerStep(ServerStep(START.server, Connect(c)), OpenRequest(f, 1, c, d))
      == One(f, c, d, OneInfo(c, 1, []), {}, [Told(1, 1, d)])
  {
    hide StateOf;
    assert [] + [Sub(c, 1)] == [Sub(c, 1)] && [] + [ClientDoc(f, 1)] == [ClientDoc(f, 1)];
    assert [] + [Told(1, 1, d)] == [Told(1, 1, d)];
  }

  lemma OneModified(f: FileId, c: ConnId, d: Doc, info: Info, changed: set<FileId>, change: Documents.Change, wire: seq<Packet>)
    ensures ApplyOp(One(f, c, d, info, changed, wire), Modify(f, change, false))
      == One(f, c, d.(content := Apply(change, d.content)),
        if d.state.Loaded? then info.(pending := info.pending + [change]) else info,
        if d.state.Loaded? then changed + {f} else changed, wire)
  {
    hide Apply;
  }

  lemma OneSubscriber(s: Server, sub: Sub, body: Body)
    ensures Broadcast(s, [sub], body) == Send(s, sub.conn, Packet(sub.docId, body))
  {
    assert [sub][..0] == [];
  }

  lemma OneNewState(f: FileId, c: ConnId, d: Doc, d': Doc, gen: int, pending: seq<Documents.Change>, changed: set<FileId>, wire: seq<Packet>)
    ensures ApplyOp(One(f, c, d, OneInfo(c, gen, pending), changed, wire), NewState(f, d'))
      == One(f, c, d', OneInfo(c, gen + 1, pending), changed, wire + [Told(1, gen, d')])
  {
    var s := One(f, c, d, OneInfo(c, gen, pending), changed, wire);
    var s0 := s.(docs := s.docs[f := d']);
    OneSubscriber(s0, Sub(c, 1), StateOf(d', gen));
    hide StateOf;
    var s' := ApplyOp(s, NewState(f, d'));
    assert s'.wires == map[c := wire + [Told(1, gen, d')]];
    assert s'.open == map[f := OneInfo(c, gen + 1, pending)];
    assert s'.docs == map[f := d'];
  }

  lemma OneSent(f: FileId, c: ConnId, content: Content, gen: int, pending: seq<Documents.Change>, wire: seq<Packet>)
    ensures SendPendingChanges(One(f, c, Doc(Loaded, content), OneInfo(c, gen, pending), {f}, wire), [f])
      == One(f, c, Doc(Loaded, content), OneInfo(c, gen + 1, []), {}, wire + [Packet(1, Changes(gen, pending))])
  {
    var s := One(f, c, Doc(Loaded, content), OneInfo(c, gen, pending), {f}, wire);
    OneSubscriber(s, Sub(c, 1), Changes(gen, pending));
    assert [f][..0] == [];
    var s' := SendPendingChangesOf(s, f);
    assert s'.wires == map[c := wire + [Packet(1, Changes(gen, pending))]];
    assert s'.open == map[f := OneInfo(c, gen + 1, [])];
    assert SendInOrder(s, [f]) == SendPendingChangesOf(SendInOrder(s, [f][..0]), f);
  }

  lemma OneAccepts(f: FileId, c: ConnId, d: Doc, info: Info, wire: seq<Packet>)
    requires info.connections == [Sub(c, 1)]
    ensures Accepts(One(f, c, d, info, {}, wire), 1, c)
  {
    assert FirstDoc([ClientDoc(f, 1)], 1) == 0;
  }

  function Old(): Documents.Change {
    SetChange(PATH, "old")
  }

  /** A change, a link to a file that cannot be loaded, another change, and the link taken away
      again (Foundation/Document/Document.cpp:175-369, 550-567, 719-738). */
  function OvertakenOps(f: FileId): seq<DocOp> {
    [Modify(f, Old(), false), NewState(f, Doc(DependentError, map[PATH := "old"])),
      Modify(f, SetChange(PATH, "new"), false), NewState(f, Doc(Loaded, map[PATH := "new"]))]
  }

  function OvertakenRun(f: FileId, c: ConnId): seq<Event> {
    [Connect(c), OpenRequest(f, 1, c, Doc(Loaded, map[])), ChangeRequest(1, c, OvertakenOps(f), [f])]
  }

  function OvertakenWire(): seq<Packet> {
    [Told(1, 1, Doc(Loaded, map[])), Told(1, 1, Doc(DependentError, map[PATH := "old"])),
      Told(1, 2, Doc(Loaded, map[PATH := "new"])), Packet(1, Changes(3, [Old()])), Packet(1, ChangeOk)]
  }

  lemma FourOps(s: Server, ops: seq<DocOp>)
    requires |ops| == 4
    ensures ApplyOps(s, ops) == ApplyOp(ApplyOp(ApplyOp(ApplyOp(s, ops[0]), ops[1]), ops[2]), ops[3])
  {
    assert ops[..3][..2] == ops[..2] && ops[..2][..1] == ops[..1] && ops[..1][..0] == [];
    hide ApplyOp;
    assert ApplyOps(s, ops[..1]) == ApplyOp(ApplyOps(s, []), ops[0]);
    assert ApplyOps(s, ops[..2]) == ApplyOp(ApplyOps(s, ops[..1]), ops[1]);
    assert ApplyOps(s, ops[..3]) == ApplyOp(ApplyOps(s, ops[..2]), ops[2]);
  }

  lemma OldAndNew(content: Content)
    requires forall k :: k in content ==> k == PATH
    ensures Apply(Old(), content) == map[PATH := "old"]
    ensures Apply(SetChange(PATH, "new"), content) == map[PATH := "new"]
  {
  }

  lemma OvertakenFlush(f: FileId, c: ConnId, p: Packet)
    ensures ApplyOps(One(f, c, Doc(Loaded, map[]), OneInfo(c, 1, []), {}, [p]), OvertakenOps(f)).changed == {f}
    ensures Flush(One(f, c, Doc(Loaded, map[]), OneInfo(c, 1, []), {}, [p]), OvertakenOps(f), [f])
      == One(f, c, Doc(Loaded, map[PATH := "new"]), OneInfo(c, 4, []), {}, [p] + OvertakenWire()[1..4])
  {
    var s0, ops := One(f, c, Doc(Loaded, map[]), OneInfo(c, 1, []), {}, [p]), OvertakenOps(f);
    var first, failed := Doc(Loaded, map[PATH := "old"]), Doc(DependentError, map[PATH := "old"]);
    var unsaid, fixed := Doc(DependentError, map[PATH := "new"]), Doc(Loaded, map[PATH := "new"]);
    var w2 := [p] + [Told(1, 1, failed)];
    var w3 := w2 + [Told(1, 2, fixed)];
    var s1, s2 := One(f, c, first, OneInfo(c, 1, [Old()]), {f}, [p]), One(f, c, failed, OneInfo(c, 2, [Old()]), {f}, w2);
    var s3, s4 := One(f, c, unsaid, OneInfo(c, 2, [Old()]), {f}, w2), One(f, c, fixed, OneInfo(c, 3, [Old()]), {f}, w3);
    assert w3 + [Packet(1, Changes(3, [Old()]))] == [p] + OvertakenWire()[1..4];
    OldAndNew(map[]);
    OldAndNew(map[PATH := "old"]);
    hide Apply, SetChange, Old, StateOf, SendPendingChanges, One, ApplyOp, Told, OvertakenWire;
    assert ApplyOp(s0, ops[0]) == s1 by {
      OneModified(f, c, Doc(Loaded, map[]), OneInfo(c, 1, []), {}, Old(), [p]);
      assert [] + [Old()] == [Old()] && {} + {f} == {f};
    }
    assert ApplyOp(s1, ops[1]) == s2 by {
      OneNewState(f, c, first, failed, 1, [Old()], {f}, [p]);
    }
    assert ApplyOp(s2, ops[2]) == s3 by {
      OneModified(f, c, failed, OneInfo(c, 2, [Old()]), {f}, SetChange(PATH, "new"), w2);
    }
    assert ApplyOp(s3, ops[3]) == s4 by {
      OneNewState(f, c, unsaid, fixed, 2, [Old()], {f}, w2);
    }
    FourOps(s0, ops);
    OneSent(f, c, fixed.content, 3, [Old()], w3);
    OneChanged(f, c, fixed, OneInfo(c, 3, [Old()]), {f}, w3);
  }

  lemma OneChanged(f: FileId, c: ConnId, d: Doc, info: Info, changed: set<FileId>, wire: seq<Packet>)
    ensures One(f, c, d, info, changed, wire).changed == changed
  {
  }

  lemma OvertakenAnswered(f: FileId, c: ConnId, d: Doc)
    ensures Send(One(f, c, d, OneInfo(c, 4, []), {}, [Told(1, 1, Doc(Loaded, map[]))] + OvertakenWire()[1..4]), c, Packet(1, ChangeOk))
      == One(f, c, d, OneInfo(c, 4, []), {}, OvertakenWire())
  {
    hide StateOf;
    var p := Told(1, 1, Doc(Loaded, map[]));
    assert [p] + OvertakenWire()[1..4] + [Packet(1, ChangeOk)] == OvertakenWire();
  }

  lemma OvertakenServer(f: FileId, c: ConnId)
    ensures Run(OvertakenRun(f, c)[..1]).server == START.server.(clients := map[c := []])
    ensures Run(OvertakenRun(f, c)[..2]).server
      == One(f, c, Doc(Loaded, map[]), OneInfo(c, 1, []), {}, [Told(1, 1, Doc(Loaded, map[]))])
    ensures Run(OvertakenRun(f, c)).server == One(f, c, Doc(Loaded, map[PATH := "new"]), OneInfo(c, 4, []), {}, OvertakenWire())
  {
    var r, p := OvertakenRun(f, c), Told(1, 1, Doc(Loaded, map[]));
    assert r[..0] == [] && r[..3] == r;
    RunSnoc(r, 0);
    RunSnoc(r, 1);
    RunSnoc(r, 2);
    EmptyRun();
    OneOpened(f, c, Doc(Loaded, map[]));
    OneAccepts(f, c, Doc(Loaded, map[]), OneInfo(c, 1, []), [p]);
    OvertakenFlush(f, c, p);
    OvertakenAnswered(f, c, Doc(Loaded, map[PATH := "new"]));
    hide Run, Flush, One, OvertakenOps, OvertakenWire, OpenDocumentForClient, Accepts, Send, Told, AllowedRun;
  }

  lemma EmptyRun()
    ensures Run([]) == START
  {
  }

  lemma OvertakenReplay()
    ensures Replay(NEW_EDITOR, OvertakenWire(), 1) == View(true, map[PATH := "old"])
  {
    var w, fixed: Content := OvertakenWire(), map[PATH := "new"];
    assert w[..4][..3] == w[..3] && w[..3][..2] == w[..2];
    ApplyAllSnoc([], Old(), fixed);
    assert [] + [Old()] == [Old()];
    assert Apply(Old(), fixed) == map[PATH := "old"];
    hide Apply, SetChange;
    var v := Replay(NEW_EDITOR, w[..2], 1);
    assert Replay(NEW_EDITOR, w[..3], 1) == Receive(v, w[2], 1) == View(true, fixed);
    assert Replay(NEW_EDITOR, w[..4], 1) == Receive(View(true, fixed), w[3], 1);
    assert Replay(NEW_EDITOR, w, 1) == Receive(Replay(NEW_EDITOR, w[..4], 1), w[4], 1);
  }

  lemma OvertakenAllowed(f: FileId, c: ConnId)
    ensures AllowedRun(OvertakenRun(f, c))
  {
    var r, p := OvertakenRun(f, c), Told(1, 1, Doc(Loaded, map[]));
    OvertakenServer(f, c);
    TwiceMayOpen(f, c, Doc(Loaded, map[]));
    OvertakenFlush(f, c, p);
    hide Run, AllowedRun, StateOf, MayOpen, One, ApplyOps, OvertakenOps, Accepts, Flush, OvertakenWire;
    forall k | 0 <= k < 3 ensures Allowed(Run(r[..k]).server, r[k]) {
      assert k == 0 || k == 1 || k == 2;
    }
    AllAllowed(r);
  }

  /** One request changes a document, makes it fail, changes it and repairs it: the subscriber is
      told the repaired state first and the first change after it, and is left with the old value. */
  lemma WaitingChangeOvertaken(f: FileId, c: ConnId)
    ensures AllowedRun(OvertakenRun(f, c))
    ensures var s := Run(OvertakenRun(f, c)).server;
      && f in s.open && Sub(c, 1) in s.open[f].connections && DocOf(s, f) == Doc(Loaded, map[PATH := "new"])
      && Replay(NEW_EDITOR, Wire(s, c), 1) == View(true, map[PATH := "old"])
  {
    OvertakenAllowed(f, c);
    OvertakenServer(f, c);
    OvertakenReplay();
    hide Run, Replay, AllowedRun, OvertakenRun, OvertakenWire;
  }

  function TwiceRun(f: FileId, c: ConnId, d: Doc): seq<Event> {
    [Connect(c), OpenRequest(f, 1, c, d), OpenRequest(f, 2, c, d), CloseRequest(2, c, false)]
  }

  function Twice(f: FileId, c: ConnId, d: Doc): Server {
    Server(map[f := d], map[f := Info(1, [Sub(c, 1), Sub(c, 2)], [])], map[c := [ClientDoc(f, 1), ClientDoc(f, 2)]],
      {}, map[f := 1], map[c := [Told(1, 1, d), Told(2, 1, d)]])
  }

  lemma OpenedAgain(f: FileId, c: ConnId, d: Doc)
    ensures ServerStep(One(f, c, d, OneInfo(c, 1, []), {}, [Told(1, 1, d)]), OpenRequest(f, 2, c, d)) == Twice(f, c, d)
  {
    hide StateOf;
    assert [Sub(c, 1)] + [Sub(c, 2)] == [Sub(c, 1), Sub(c, 2)];
    assert [ClientDoc(f, 1)] + [ClientDoc(f, 2)] == [ClientDoc(f, 1), ClientDoc(f, 2)];
    assert [Told(1, 1, d)] + [Told(2, 1, d)] == [Told(1, 1, d), Told(2, 1, d)];
  }

  lemma ClosedSecond(f: FileId, c: ConnId, d: Doc)
    ensures var s' := Close(Twice(f, c, d), 2, c, false);
      && f in s'.open && s'.open[f].connections == [Sub(c, 2)] && s'.clients == map[c := [ClientDoc(f, 2)]]
      && Wire(s', c) == [Told(1, 1, d), Told(2, 1, d), Packet(2, Closed)]
  {
    hide StateOf;
    var list, subs := [ClientDoc(f, 1), ClientDoc(f, 2)], [Sub(c, 1), Sub(c, 2)];
    assert list[1..] == [ClientDoc(f, 2)] && FirstDoc(list, 2) == 1;
    assert FirstSub(subs, c) == 0 && DropSub(subs, c) == [Sub(c, 2)];
    assert FirstFile(list, f) == 0 && DropFile(list, f) == [ClientDoc(f, 2)];
    assert [Told(1, 1, d), Told(2, 1, d)] + [Packet(2, Closed)] == [Told(1, 1, d), Told(2, 1, d), Packet(2, Closed)];
  }

  lemma OnlySecondFound(s: Server, f: FileId, c: ConnId)
    requires f in s.open && s.clients == map[c := [ClientDoc(f, 2)]]
    ensures GetDocumentForClient(s, 1, c).None? && GetDocumentForClient(s, 2, c) == Some(f)
  {
    assert [ClientDoc(f, 2)][1..] == [];
  }

  lemma RunStep(events: seq<Event>, n: nat, s: Server)
    requires n < |events| && Run(events[..n]).server == s && !events[n].Deliver?
    ensures Run(events[..n + 1]).server == ServerStep(s, events[n])
  {
    RunSnoc(events, n);
    hide ServerStep, Run;
  }

  lemma FourSteps(events: seq<Event>, s1: Server, s2: Server, s3: Server, s4: Server)
    requires |events| == 4 && forall k :: 0 <= k < 4 ==> !events[k].Deliver?
    requires s1 == ServerStep(START.server, events[0]) && s2 == ServerStep(s1, events[1])
    requires s3 == ServerStep(s2, events[2]) && s4 == ServerStep(s3, events[3])
    ensures Run(events[..1]).server == s1 && Run(events[..2]).server == s2
    ensures Run(events[..3]).server == s3 && Run(events).server == s4
  {
    assert events[..0] == [] && events[..4] == events;
    EmptyRun();
    hide ServerStep, Run;
    RunStep(events, 0, START.server);
    RunStep(events, 1, s1);
    RunStep(events, 2, s2);
    RunStep(events, 3, s3);
  }

  lemma TwiceSteps(f: FileId, c: ConnId, d: Doc)
    ensures ServerStep(START.server, Connect(c)) == START.server.(clients := map[c := []])
    ensures ServerStep(Twice(f, c, d), CloseRequest(2, c, false)) == Close(Twice(f, c, d), 2, c, false)
  {
    hide Close, Twice;
  }

  lemma TwiceServer(f: FileId, c: ConnId, d: Doc)
    ensures var r := TwiceRun(f, c, d);
      && Run(r[..1]).server == START.server.(clients := map[c := []])
      && Run(r[..2]).server == One(f, c, d, OneInfo(c, 1, []), {}, [Told(1, 1, d)])
      && Run(r[..3]).server == Twice(f, c, d)
      && Run(r).server == Close(Twice(f, c, d), 2, c, false)
  {
    OneOpened(f, c, d);
    OpenedAgain(f, c, d);
    TwiceSteps(f, c, d);
    hide Run, ServerStep, Close, StateOf, One, Twice, Told;
    FourSteps(TwiceRun(f, c, d), START.server.(clients := map[c := []]), One(f, c, d, OneInfo(c, 1, []), {}, [Told(1, 1, d)]),
      Twice(f, c, d), Close(Twice(f, c, d), 2, c, false));
  }

  lemma TwiceMayOpen(f: FileId, c: ConnId, d: Doc)
    ensures MayOpen(START.server.(clients := map[c := []]), 1, c)
    ensures MayOpen(One(f, c, d, OneInfo(c, 1, []), {}, [Told(1, 1, d)]), 2, c)
  {
    hide StateOf;
  }

  lemma TwiceAllowed(f: FileId, c: ConnId, d: Doc)
    ensures AllowedRun(TwiceRun(f, c, d))
  {
    TwiceServer(f, c, d);
    TwiceMayOpen(f, c, d);
    hide Run, AllowedRun, Close, StateOf, MayOpen, One, Twice;
    var r := TwiceRun(f, c, d);
    forall k | 0 <= k < 4 ensures Allowed(Run(r[..k]).server, r[k]) {
      assert k == 0 || k == 1 || k == 2 || k == 3;
    }
    AllAllowed(r);
  }

  /** A client that opens a file under two ids and closes the second is told that the second is
      closed, but has lost the first. */
  lemma OpenedTwice(f: FileId, c: ConnId, d: Doc)
    ensures AllowedRun(TwiceRun(f, c, d))
    ensures var s := Run(TwiceRun(f, c, d)).server;
      && f in s.open && s.open[f].connections == [Sub(c, 2)]
      && GetDocumentForClient(s, 1, c).None? && GetDocumentForClient(s, 2, c) == Some(f)
      && Wire(s, c) == [Told(1, 1, d), Told(2, 1, d), Packet(2, Closed)]
  {
    TwiceAllowed(f, c, d);
    TwiceServer(f, c, d);
    ClosedSecond(f, c, d);
    hide Run, Close, StateOf, AllowedRun, TwiceRun, Twice, GetDocumentForClient;
    OnlySecondFound(Run(TwiceRun(f, c, d)).server, f, c);
  }
}
