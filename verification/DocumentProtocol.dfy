/** The document server as a step system (DocumentServer/DocumentServer.cpp) with the
    editors it serves (Editor/EditorContainer.cpp, Editor/DocumentEditor.h). */
module DocumentProtocol {
  import opened Documents
  import opened Options
  import opened Vectors

  /** The hash of a path; paths in use have different ones. */
  datatype FileId = FileId(hash: int)

  type ConnId = int
  type DocId = int

  datatype DocState = Loading | Loaded | LoadFailure | DependentError

  /** A document held by the compiler. */
  datatype Doc = Doc(state: DocState, content: Content)

  /** A subscriber of an open document. */
  datatype Sub = Sub(conn: ConnId, docId: DocId)

  datatype Info = Info(dataGen: int, connections: seq<Sub>, pending: seq<Change>)

  datatype ClientDoc = ClientDoc(file: FileId, docId: DocId)

  datatype Body =
    | State(gen: int, state: DocState, content: Content)
    | Changes(gen: int, changes: seq<Change>)
    | Closed
    | ChangeOk

  datatype Packet = Packet(docId: DocId, body: Body)

  /** wires holds all that was ever sent on a connection. */
  datatype Server = Server(
    docs: map<FileId, Doc>,
    open: map<FileId, Info>,
    clients: map<ConnId, seq<ClientDoc>>,
    changed: set<FileId>,
    refs: map<FileId, nat>,
    wires: map<ConnId, seq<Packet>>)

  // Sending

  function Wire(s: Server, conn: ConnId): seq<Packet> {
    if conn in s.wires then s.wires[conn] else []
  }

  function Send(s: Server, conn: ConnId, p: Packet): Server {
    s.(wires := s.wires[conn := Wire(s, conn) + [p]])
  }

  function Broadcast(s: Server, subs: seq<Sub>, body: Body): Server {
    if subs == [] then s
    else
      var last := subs[|subs| - 1];
      Send(Broadcast(s, subs[..|subs| - 1], body), last.conn, Packet(last.docId, body))
  }

  function DocOf(s: Server, f: FileId): Doc {
    if f in s.docs then s.docs[f] else Doc(Loading, map[])
  }

  /** The part of a state packet after the document id; the content goes along only when the
      document is loaded. */
  function StateOf(d: Doc, gen: int): Body {
    State(gen, d.state, if d.state.Loaded? then d.content else map[])
  }

  // What documents report

  function HandleDocumentChange(s: Server, f: FileId, c: Change): Server {
    if f !in s.open then s
    else s.(open := s.open[f := s.open[f].(pending := s.open[f].pending + [c])], changed := s.changed + {f})
  }

  function HandleDocumentStateChange(s: Server, f: FileId): Server {
    if f !in s.open then s
    else
      var info := s.open[f];
      var s' := Broadcast(s, info.connections, StateOf(DocOf(s, f), info.dataGen));
      s'.(open := s.open[f := info.(dataGen := info.dataGen + 1)])
  }

  /** What happens to documents inside one request: a change or a new state. A change is reported
      when the document is loaded; one that comes from a linked document is reported always. */
  datatype DocOp =
    | Modify(file: FileId, change: Change, fromLink: bool)
    | NewState(file: FileId, doc: Doc)

  function ApplyOp(s: Server, op: DocOp): Server {
    match op
    case Modify(f, c, fromLink) =>
      var d := DocOf(s, f);
      var s' := s.(docs := s.docs[f := d.(content := Apply(c, d.content))]);
      if d.state.Loaded? || fromLink then HandleDocumentChange(s', f, c) else s'
    case NewState(f, d) =>
      HandleDocumentStateChange(s.(docs := s.docs[f := d]), f)
  }

  function ApplyOps(s: Server, ops: seq<DocOp>): Server {
    if ops == [] then s else ApplyOp(ApplyOps(s, ops[..|ops| - 1]), ops[|ops| - 1])
  }

  function SendPendingChangesOf(s: Server, f: FileId): Server {
    if f !in s.open || !DocOf(s, f).state.Loaded? then s
    else
      var info := s.open[f];
      var s' := Broadcast(s, info.connections, Changes(info.dataGen, info.pending));
      s'.(open := s.open[f := info.(pending := [], dataGen := info.dataGen + 1)])
  }

  function SendInOrder(s: Server, order: seq<FileId>): Server {
    if order == [] then s else SendPendingChangesOf(SendInOrder(s, order[..|order| - 1]), order[|order| - 1])
  }

  ghost predicate Enumerates(order: seq<FileId>, members: set<FileId>) {
    (forall x :: x in order <==> x in members) && forall i, j :: 0 <= i < j < |order| ==> order[i] != order[j]
  }

  function SendPendingChanges(s: Server, order: seq<FileId>): Server {
    SendInOrder(s, order).(changed := {})
  }

  // Opening and closing

  function ClientDocs(s: Server, conn: ConnId): seq<ClientDoc> {
    if conn in s.clients then s.clients[conn] else []
  }

  function FirstSub(subs: seq<Sub>, conn: ConnId): (k: nat)
    ensures k <= |subs|
    ensures k < |subs| ==> subs[k].conn == conn
    ensures forall j :: 0 <= j < k ==> subs[j].conn != conn
  {
    if subs == [] || subs[0].conn == conn then 0 else 1 + FirstSub(subs[1..], conn)
  }

  /** Without the first entry of the connection, if it has one. */
  function DropSub(subs: seq<Sub>, conn: ConnId): seq<Sub> {
    var k := FirstSub(subs, conn);
    if k < |subs| then RemoveIndexQuick(subs, k) else subs
  }

  function FirstFile(list: seq<ClientDoc>, f: FileId): (k: nat)
    ensures k <= |list|
    ensures k < |list| ==> list[k].file == f
    ensures forall j :: 0 <= j < k ==> list[j].file != f
  {
    if list == [] || list[0].file == f then 0 else 1 + FirstFile(list[1..], f)
  }

  function DropFile(list: seq<ClientDoc>, f: FileId): seq<ClientDoc> {
    var k := FirstFile(list, f);
    if k < |list| then RemoveIndexQuick(list, k) else list
  }

  /** Gives up the server's reference; a document nobody links goes too. */
  function Release(s: Server, f: FileId, linked: bool): Server {
    s.(open := s.open - {f},
       refs := s.refs[f := if f in s.refs && s.refs[f] > 0 then s.refs[f] - 1 else 0],
       docs := if linked then s.docs else s.docs - {f})
  }

  /** loaded is what loading gives when the compiler does not have the document yet. */
  function LoadDocument(s: Server, f: FileId, loaded: Doc): Server {
    if f in s.docs then s else s.(docs := s.docs[f := loaded])
  }

  /** The server's entry for a document, with one reference to it. */
  function EnterDocument(s: Server, f: FileId): Server {
    if f in s.open then s
    else s.(open := s.open[f := Info(1, [], [])], refs := s.refs[f := (if f in s.refs then s.refs[f] else 0) + 1])
  }

  function Subscribe(s: Server, f: FileId, docId: DocId, conn: ConnId): Server
    requires f in s.open
  {
    var info := s.open[f];
    var s1 := s.(open := s.open[f := info.(connections := info.connections + [Sub(conn, docId)])]);
    if conn !in s1.clients then s1
    else
      var s2 := s1.(clients := s1.clients[conn := s1.clients[conn] + [ClientDoc(f, docId)]]);
      Send(s2, conn, Packet(docId, StateOf(DocOf(s2, f), info.dataGen)))
  }

  function OpenDocumentForClient(s: Server, f: FileId, docId: DocId, conn: ConnId, loaded: Doc): Server {
    Subscribe(EnterDocument(LoadDocument(s, f, loaded), f), f, docId, conn)
  }

  function FirstDoc(list: seq<ClientDoc>, docId: DocId): (k: nat)
    ensures k <= |list|
    ensures k < |list| ==> list[k].docId == docId
    ensures forall j :: 0 <= j < k ==> list[j].docId != docId
  {
    if list == [] || list[0].docId == docId then 0 else 1 + FirstDoc(list[1..], docId)
  }

  function GetDocumentForClient(s: Server, docId: DocId, conn: ConnId): Option<FileId> {
    var list := ClientDocs(s, conn);
    var k := FirstDoc(list, docId);
    if k < |list| && list[k].file in s.open then Some(list[k].file) else None
  }

  function DropConnection(s: Server, f: FileId, conn: ConnId, linked: bool): Server {
    if f !in s.open then s
    else
      var subs := DropSub(s.open[f].connections, conn);
      var s' := s.(open := s.open[f := s.open[f].(connections := subs)]);
      if subs == [] then Release(s', f, linked) else s'
  }

  function Close(s: Server, docId: DocId, conn: ConnId, linked: bool): Server {
    match GetDocumentForClient(s, docId, conn)
    case None => s
    case Some(f) =>
      var s1 := DropConnection(s, f, conn, linked);
      var s2 := if conn in s1.clients then s1.(clients := s1.clients[conn := DropFile(s1.clients[conn], f)]) else s1;
      Send(s2, conn, Packet(docId, Closed))
  }

  function DropAll(s: Server, conn: ConnId, list: seq<ClientDoc>, linked: set<FileId>): Server {
    if list == [] then s
    else
      var f := list[|list| - 1].file;
      DropConnection(DropAll(s, conn, list[..|list| - 1], linked), f, conn, f in linked)
  }

  function Disconnect(s: Server, conn: ConnId, linked: set<FileId>): Server {
    if conn !in s.clients then s
    else
      var s' := DropAll(s, conn, s.clients[conn], linked);
      s'.(clients := s'.clients - {conn})
  }

  function TellRemoved(s: Server, f: FileId, subs: seq<Sub>): Server {
    if subs == [] then s
    else
      var last := subs[|subs| - 1];
      var s' := TellRemoved(s, f, subs[..|subs| - 1]);
      if last.conn !in s'.clients then s'
      else Send(s'.(clients := s'.clients[last.conn := DropFile(s'.clients[last.conn], f)]), last.conn, Packet(last.docId, Closed))
  }

  function HandleDocumentRemoved(s: Server, f: FileId, linked: bool): Server {
    if f !in s.open then s else Release(TellRemoved(s, f, s.open[f].connections), f, linked)
  }
}
