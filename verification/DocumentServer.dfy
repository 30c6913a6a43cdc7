/** The document server with its fields (DocumentServer/DocumentServer.cpp): every method does
    what the step system of DocumentProtocol says. */
module DocumentServer {
  import opened DocumentProtocol
  import opened DocumentRuns
  import opened DocumentSync
  import opened Documents
  import opened Options
  import opened Vectors

  lemma SnocPrefix<T>(q: seq<T>, i: nat)
    requires i < |q|
    ensures q[..i + 1][..i] == q[..i] && q[..i + 1][i] == q[i]
  {
  }

  method FindSub(subs: seq<Sub>, conn: ConnId) returns (k: nat)
    ensures k == FirstSub(subs, conn)
  {
    k := 0;
    while k < |subs| && subs[k].conn != conn
      invariant k <= |subs|
      invariant forall j :: 0 <= j < k ==> subs[j].conn != conn
    {
      k := k + 1;
    }
  }

  method FindFile(list: seq<ClientDoc>, f: FileId) returns (k: nat)
    ensures k == FirstFile(list, f)
  {
    k := 0;
    while k < |list| && list[k].file != f
      invariant k <= |list|
      invariant forall j :: 0 <= j < k ==> list[j].file != f
    {
      k := k + 1;
    }
  }

  class DocumentServer {
    var docs: map<FileId, Doc>
    var openDocuments: map<FileId, Info>
    var clients: map<ConnId, seq<ClientDoc>>
    var pendingChangedDocuments: set<FileId>
    var refs: map<FileId, nat>
    var wires: map<ConnId, seq<Packet>>

    constructor ()
      ensures State() == Server(map[], map[], map[], {}, map[], map[])
    {
      docs, openDocuments, clients := map[], map[], map[];
      pendingChangedDocuments, refs, wires := {}, map[], map[];
    }

    function State(): Server
      reads this
    {
      Server(docs, openDocuments, clients, pendingChangedDocuments, refs, wires)
    }

    method SendMessageToClient(conn: ConnId, p: Packet)
      modifies this`wires
      ensures State() == Send(old(State()), conn, p)
    {
      wires := wires[conn := (if conn in wires then wires[conn] else []) + [p]];
    }

    method SendToAll(subs: seq<Sub>, body: Body)
      modifies this`wires
      ensures State() == Broadcast(old(State()), subs, body)
    {
      var i := 0;
      while i < |subs|
        invariant i <= |subs|
        invariant State() == Broadcast(old(State()), subs[..i], body)
      {
        SnocPrefix(subs, i);
        SendMessageToClient(subs[i].conn, Packet(subs[i].docId, body));
        i := i + 1;
      }
      assert subs[..i] == subs;
    }

    method HandleDocumentChange(f: FileId, c: Change)
      modifies this
      ensures State() == DocumentProtocol.HandleDocumentChange(old(State()), f, c)
    {
      if f !in openDocuments {
        return;
      }
      openDocuments := openDocuments[f := openDocuments[f].(pending := openDocuments[f].pending + [c])];
      if f !in pendingChangedDocuments {
        pendingChangedDocuments := pendingChangedDocuments + {f};
      }
      assert old(State()).changed + {f} == pendingChangedDocuments;
    }

    method HandleDocumentStateChange(f: FileId)
      modifies this
      ensures State() == DocumentProtocol.HandleDocumentStateChange(old(State()), f)
      ensures OnlyOnce(old(State())) && f in old(openDocuments) ==>
        Heard(old(State()), State(), f, StateOf(DocOf(old(State()), f), old(openDocuments)[f].dataGen))
    {
      if f !in openDocuments {
        return;
      }
      var info := openDocuments[f];
      var d := if f in docs then docs[f] else Doc(Loading, map[]);
      var body := Body.State(info.dataGen, d.state, if d.state.Loaded? then d.content else map[]);
      openDocuments := openDocuments[f := info.(dataGen := info.dataGen + 1)];
      ghost var openNow := openDocuments;
      SendToAll(info.connections, body);
      BroadcastIsWires(old(State()), old(State()), info.connections, body);
      BroadcastIsWires(old(State()), old(State()).(open := openNow), info.connections, body);
      if OnlyOnce(old(State())) {
        BroadcastHeard(old(State()), State(), f, body);
      }
    }

    /** A loaded document reports what changes in it, and any document a new state. */
    method ModifyDocument(f: FileId, c: Change, fromLink: bool)
      modifies this
      ensures State() == ApplyOp(old(State()), Modify(f, c, fromLink))
    {
      var d := if f in docs then docs[f] else Doc(Loading, map[]);
      docs := docs[f := d.(content := Apply(c, d.content))];
      if d.state.Loaded? || fromLink {
        HandleDocumentChange(f, c);
      }
    }

    method SetDocumentState(f: FileId, d: Doc)
      modifies this
      ensures State() == ApplyOp(old(State()), NewState(f, d))
    {
      docs := docs[f := d];
      HandleDocumentStateChange(f);
    }

    method PerformOps(ops: seq<DocOp>)
      modifies this
      ensures State() == ApplyOps(old(State()), ops)
    {
      var i := 0;
      while i < |ops|
        invariant i <= |ops|
        invariant State() == ApplyOps(old(State()), ops[..i])
      {
        SnocPrefix(ops, i);
        match ops[i] {
          case Modify(f, c, fromLink) => ModifyDocument(f, c, fromLink);
          case NewState(f, d) => SetDocumentState(f, d);
        }
        i := i + 1;
      }
      assert ops[..i] == ops;
    }

    method SendPendingChangesFor(f: FileId)
      modifies this
      ensures State() == SendPendingChangesOf(old(State()), f)
      ensures OnlyOnce(old(State())) && f in old(openDocuments) && DocOf(old(State()), f).state.Loaded? ==>
        Heard(old(State()), State(), f, Changes(old(openDocuments)[f].dataGen, old(openDocuments)[f].pending))
    {
      if f !in openDocuments || f !in docs || !docs[f].state.Loaded? {
        return;
      }
      var info := openDocuments[f];
      var body := Changes(info.dataGen, info.pending);
      openDocuments := openDocuments[f := info.(pending := [])];
      ghost var openNow := openDocuments;
      SendToAll(info.connections, body);
      BroadcastIsWires(old(State()), old(State()), info.connections, body);
      BroadcastIsWires(old(State()), old(State()).(open := openNow), info.connections, body);
      openDocuments := openDocuments[f := info.(pending := [], dataGen := info.dataGen + 1)];
      assert openDocuments == old(openDocuments)[f := info.(pending := [], dataGen := info.dataGen + 1)];
      if OnlyOnce(old(State())) {
        BroadcastHeard(old(State()), State(), f, body);
      }
    }

    /** The flagged documents are visited in some order, each once. */
    method SendPendingChanges() returns (ghost order: seq<FileId>)
      modifies this
      ensures Enumerates(order, old(pendingChangedDocuments))
      ensures State() == DocumentProtocol.SendPendingChanges(old(State()), order)
    {
      hide SendPendingChangesOf;
      var rest := pendingChangedDocuments;
      order := [];
      while rest != {}
        invariant rest <= old(pendingChangedDocuments)
        invariant Enumerates(order, old(pendingChangedDocuments) - rest)
        invariant State() == SendInOrder(old(State()), order)
        decreases |rest|
      {
        var f :| f in rest;
        ghost var longer := order + [f];
        assert longer[..|order|] == order;
        assert Enumerates(longer, old(pendingChangedDocuments) - (rest - {f})) by {
          assert forall x :: x in longer <==> x in order || x == f;
        }
        SendPendingChangesFor(f);
        rest := rest - {f};
        order := longer;
      }
      assert old(pendingChangedDocuments) - rest == old(pendingChangedDocuments);
      pendingChangedDocuments := {};
    }

    method OpenDocumentForClient(f: FileId, docId: DocId, conn: ConnId, loaded: Doc)
      modifies this
      ensures State() == DocumentProtocol.OpenDocumentForClient(old(State()), f, docId, conn, loaded)
    {
      if f !in docs {
        docs := docs[f := loaded];
      }
      if f !in openDocuments {
        openDocuments := openDocuments[f := Info(1, [], [])];
        refs := refs[f := (if f in refs then refs[f] else 0) + 1];
      }
      var info := openDocuments[f];
      openDocuments := openDocuments[f := info.(connections := info.connections + [Sub(conn, docId)])];
      if conn !in clients {
        return;
      }
      clients := clients[conn := clients[conn] + [ClientDoc(f, docId)]];
      SendMessageToClient(conn, Packet(docId, StateOf(docs[f], info.dataGen)));
    }

    method GetDocumentForClient(docId: DocId, conn: ConnId) returns (found: Option<FileId>)
      ensures found == DocumentProtocol.GetDocumentForClient(State(), docId, conn)
    {
      if conn !in clients {
        return None;
      }
      var list := clients[conn];
      var k := 0;
      while k < |list|
        invariant k <= |list|
        invariant forall j :: 0 <= j < k ==> list[j].docId != docId
      {
        if list[k].docId == docId {
          assert k == FirstDoc(list, docId);
          return if list[k].file in openDocuments then Some(list[k].file) else None;
        }
        k := k + 1;
      }
      return None;
    }

    method RemoveConnection(f: FileId, conn: ConnId)
      requires f in openDocuments
      modifies this`openDocuments
      ensures openDocuments
        == old(openDocuments)[f := old(openDocuments)[f].(connections := DropSub(old(openDocuments)[f].connections, conn))]
    {
      var subs := openDocuments[f].connections;
      var k := FindSub(subs, conn);
      openDocuments := openDocuments[f := openDocuments[f].(connections := if k < |subs| then RemoveIndexQuick(subs, k) else subs)];
    }

    method RemoveDocument(conn: ConnId, f: FileId)
      requires conn in clients
      modifies this`clients
      ensures clients == old(clients)[conn := DropFile(old(clients)[conn], f)]
    {
      var list := clients[conn];
      var k := FindFile(list, f);
      if k < |list| {
        clients := clients[conn := RemoveIndexQuick(list, k)];
      } else {
        assert clients == clients[conn := list];
      }
    }

    /** The server's reference goes; linked says whether another document still holds one. */
    method ReleaseDocument(f: FileId, linked: bool)
      modifies this
      ensures State() == Release(old(State()), f, linked)
    {
      refs := refs[f := if f in refs && refs[f] > 0 then refs[f] - 1 else 0];
      if !linked {
        docs := docs - {f};
      }
      openDocuments := openDocuments - {f};
    }

    method Close(docId: DocId, conn: ConnId, linked: bool)
      modifies this
      ensures State() == DocumentProtocol.Close(old(State()), docId, conn, linked)
    {
      var found := GetDocumentForClient(docId, conn);
      if found.None? {
        return;
      }
      var f := found.value;
      RemoveConnection(f, conn);
      if conn in clients {
        RemoveDocument(conn, f);
      }
      if openDocuments[f].connections == [] {
        ReleaseDocument(f, linked);
      }
      SendMessageToClient(conn, Packet(docId, Closed));
    }

    method Disconnect(conn: ConnId, linked: set<FileId>)
      modifies this
      ensures State() == DocumentProtocol.Disconnect(old(State()), conn, linked)
    {
      if conn !in clients {
        return;
      }
      var list := clients[conn];
      var i := 0;
      while i < |list|
        invariant i <= |list|
        invariant State() == DropAll(old(State()), conn, list[..i], linked)
      {
        SnocPrefix(list, i);
        var f := list[i].file;
        if f in openDocuments {
          RemoveConnection(f, conn);
          if openDocuments[f].connections == [] {
            ReleaseDocument(f, f in linked);
          }
        }
        i := i + 1;
      }
      assert list[..i] == list;
      clients := clients - {conn};
    }

    method HandleDocumentRemoved(f: FileId, linked: bool)
      modifies this
      ensures State() == DocumentProtocol.HandleDocumentRemoved(old(State()), f, linked)
    {
      if f !in openDocuments {
        return;
      }
      var subs := openDocuments[f].connections;
      var i := 0;
      while i < |subs|
        invariant i <= |subs|
        invariant State() == TellRemoved(old(State()), f, subs[..i])
      {
        SnocPrefix(subs, i);
        var conn := subs[i].conn;
        if conn in clients {
          RemoveDocument(conn, f);
          SendMessageToClient(conn, Packet(subs[i].docId, Closed));
        }
        i := i + 1;
      }
      assert subs[..i] == subs;
      ReleaseDocument(f, linked);
    }

    // What the run loop makes of events

    method ClientConnected(conn: ConnId)
      modifies this
      ensures State() == ServerStep(old(State()), Connect(conn))
    {
      if conn !in clients {
        clients := clients[conn := []];
      }
    }

    /** A change request: the client must have the document and be among its subscribers. */
    method ChangeDocument(docId: DocId, conn: ConnId, ops: seq<DocOp>) returns (ghost order: seq<FileId>)
      modifies this
      ensures State() == ServerStep(old(State()), ChangeRequest(docId, conn, ops, order))
      ensures Accepts(old(State()), docId, conn) ==> Enumerates(order, ApplyOps(old(State()), ops).changed)
    {
      order := [];
      var found := GetDocumentForClient(docId, conn);
      if found.None? {
        return;
      }
      var subs := openDocuments[found.value].connections;
      var k := FindSub(subs, conn);
      if k == |subs| {
        return;
      }
      PerformOps(ops);
      order := SendPendingChanges();
      SendMessageToClient(conn, Packet(docId, ChangeOk));
    }

    /** Undo and redo flush whether or not they found the document. */
    method UndoDocument(docId: DocId, conn: ConnId, ops: seq<DocOp>) returns (ghost order: seq<FileId>)
      modifies this
      ensures State() == ServerStep(old(State()), UndoRequest(docId, conn, ops, order))
      ensures Enumerates(order, ApplyOps(old(State()), UndoOps(old(State()), UndoRequest(docId, conn, ops, order))).changed)
    {
      var found := GetDocumentForClient(docId, conn);
      if found.Some? {
        PerformOps(ops);
      }
      order := SendPendingChanges();
    }
  }
}
