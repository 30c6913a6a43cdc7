/** What every run of the document protocol keeps: subscribers that replay their packets have
    the server's documents. */
module DocumentSync {
  import opened DocumentProtocol
  import opened Documents

  /** An editor's server copy, and whether the document was loaded when last heard of. */
  datatype View = View(loaded: bool, content: Content)

  /** What the editor of a document id does with a packet. */
  function Receive(v: View, p: Packet, docId: DocId): View {
    if p.docId != docId then v
    else match p.body
      case State(_, state, content) => if state.Loaded? then View(true, content) else v.(loaded := false)
      case Changes(_, changes) => v.(content := ApplyAll(changes, v.content))
      case Closed => v
      case ChangeOk => v
  }

  function Replay(v: View, packets: seq<Packet>, docId: DocId): View {
    if packets == [] then v
    else Receive(Replay(v, packets[..|packets| - 1], docId), packets[|packets| - 1], docId)
  }

  const NEW_EDITOR := View(false, map[])

  predicate Numbered(b: Body) { b.State? || b.Changes? }

  /** The generations of the state and change packets for a document id. */
  function Gens(wire: seq<Packet>, docId: DocId): seq<int> {
    if wire == [] then []
    else
      var p := wire[|wire| - 1];
      Gens(wire[..|wire| - 1], docId) + if p.docId == docId && Numbered(p.body) then [p.body.gen] else []
  }

  lemma ReplaySnoc(v: View, packets: seq<Packet>, p: Packet, docId: DocId)
    ensures Replay(v, packets + [p], docId) == Receive(Replay(v, packets, docId), p, docId)
    ensures Gens(packets + [p], docId) ==
      Gens(packets, docId) + if p.docId == docId && Numbered(p.body) then [p.body.gen] else []
  {
    assert (packets + [p])[..|packets|] == packets;
  }

  lemma {:induction false} ReplaySplit(v: View, packets: seq<Packet>, n: nat, docId: DocId)
    requires n <= |packets|
    ensures Replay(Replay(v, packets[..n], docId), packets[n..], docId) == Replay(v, packets, docId)
  {
    if n == |packets| {
      assert packets[..n] == packets && packets[n..] == [];
    } else {
      var m := |packets| - 1;
      ReplaySplit(v, packets[..m], n, docId);
      assert packets[..m][..n] == packets[..n] && packets[n..][..m - n] == packets[..m][n..];
    }
  }

  ghost predicate NoRepeats(subs: seq<Sub>) {
    forall i, j :: 0 <= i < j < |subs| ==> subs[i] != subs[j]
  }

  /** A document id of a connection subscribes to one document and once; a connection may have
      a document open under several. */
  ghost predicate OnlyOnce(s: Server) {
    && (forall f :: f in s.open ==> NoRepeats(s.open[f].connections))
    && forall f, g, sub :: f in s.open && g in s.open && sub in s.open[f].connections && sub in s.open[g].connections ==> f == g
  }

  /** One generation g when it opened, then g, g + 1, and so on up to the current one. */
  ghost predicate GensRun(gens: seq<int>, dataGen: int) {
    && |gens| >= 1
    && gens[0] + |gens| - 1 == dataGen
    && forall i :: 1 <= i < |gens| ==> gens[i] == gens[0] + i - 1
  }

  /** The packets sent are numbered without a gap. Of a document on track they lead, with the
      changes not yet sent, from nothing to the server's document; if it is not flagged as changed
      then what was sent is all there is to it. */
  ghost predicate InSync(wire: seq<Packet>, docId: DocId, d: Doc, info: Info, flagged: bool, tracked: bool) {
    && GensRun(Gens(wire, docId), info.dataGen)
    && (tracked && d.state.Loaded? ==>
          var v := Replay(NEW_EDITOR, wire, docId);
          v.loaded && ApplyAll(info.pending, v.content) == d.content && (flagged || v.content == d.content))
  }

  /** on has the documents whose subscribers' content is on track. */
  ghost predicate AllInSync(s: Server, on: iset<FileId>) {
    forall f, sub :: f in s.open && sub in s.open[f].connections ==>
      InSync(Wire(s, sub.conn), sub.docId, DocOf(s, f), s.open[f], f in s.changed, f in on)
  }

  function RefCount(s: Server, f: FileId): nat {
    if f in s.refs then s.refs[f] else 0
  }

  /** The server holds one reference to each open document and none to others. */
  ghost predicate Refs(s: Server) {
    forall f :: RefCount(s, f) == (if f in s.open then 1 else 0) && (f in s.open ==> f in s.docs)
  }

  /** A document is open as long as somebody has it. */
  ghost predicate Populated(s: Server) {
    forall f :: f in s.open ==> s.open[f].connections != []
  }

  ghost predicate Inv(s: Server, on: iset<FileId>) {
    OnlyOnce(s) && Populated(s) && AllInSync(s, on) && Refs(s)
  }

  // Broadcasting

  /** The editor of a document id cannot tell the two apart. */
  ghost predicate SoundsLike(wire: seq<Packet>, wire': seq<Packet>, docId: DocId) {
    && Replay(NEW_EDITOR, wire, docId) == Replay(NEW_EDITOR, wire', docId)
    && Gens(wire, docId) == Gens(wire', docId)
  }

  lemma {:induction false} BroadcastIsSent(s: Server, subs: seq<Sub>, body: Body)
    ensures var s' := Broadcast(s, subs, body); s' == s.(wires := s'.wires)
  {
    if subs != [] {
      BroadcastIsSent(s, subs[..|subs| - 1], body);
    }
  }

  /** What one more packet on a connection is to the editor of a document id. */
  lemma SendSounds(wire: seq<Packet>, wire0: seq<Packet>, p: Packet, docId: DocId)
    requires SoundsLike(wire, wire0, docId)
    ensures SoundsLike(wire + [p], if p.docId == docId then wire0 + [p] else wire0, docId)
  {
    ReplaySnoc(NEW_EDITOR, wire, p, docId);
    ReplaySnoc(NEW_EDITOR, wire0, p, docId);
  }

  /** A broadcast is one packet to each subscriber's editor and nothing to any other, even when
      several ids share a connection. */
  lemma {:induction false} BroadcastSounds(s: Server, subs: seq<Sub>, body: Body, sub: Sub)
    requires NoRepeats(subs)
    ensures SoundsLike(Wire(Broadcast(s, subs, body), sub.conn),
      if sub in subs then Wire(s, sub.conn) + [Packet(sub.docId, body)] else Wire(s, sub.conn), sub.docId)
  {
    if subs != [] {
      var init, last := subs[..|subs| - 1], subs[|subs| - 1];
      BroadcastSounds(s, init, body, sub);
      assert sub in subs <==> sub in init || sub == last;
      assert sub == last ==> sub !in init;
      var s1 := Broadcast(s, init, body);
      assert Wire(Broadcast(s, subs, body), sub.conn)
        == Wire(s1, sub.conn) + if last.conn == sub.conn then [Packet(last.docId, body)] else [];
      hide Broadcast, Wire, SoundsLike, NoRepeats;
      if last.conn == sub.conn {
        SendSounds(Wire(s1, sub.conn), if sub in init then Wire(s, sub.conn) + [Packet(sub.docId, body)] else Wire(s, sub.conn),
          Packet(last.docId, body), sub.docId);
      } else {
        assert Wire(Broadcast(s, subs, body), sub.conn) == Wire(s1, sub.conn);
      }
    }
  }

  /** A broadcast looks at nothing but the wires and changes nothing else. */
  lemma {:induction false} BroadcastIsWires(s: Server, s': Server, subs: seq<Sub>, body: Body)
    requires s'.wires == s.wires
    ensures Broadcast(s', subs, body) == s'.(wires := Broadcast(s, subs, body).wires)
  {
    if subs != [] {
      BroadcastIsWires(s, s', subs[..|subs| - 1], body);
    }
  }

  /** A broadcast to the subscribers of f adds its packet to what each of them gets. */
  lemma BroadcastReaches(s: Server, f: FileId, body: Body, sub: Sub)
    requires OnlyOnce(s) && f in s.open && sub in s.open[f].connections
    ensures SoundsLike(Wire(Broadcast(s, s.open[f].connections, body), sub.conn),
      Wire(s, sub.conn) + [Packet(sub.docId, body)], sub.docId)
  {
    hide SoundsLike, NoRepeats;
    BroadcastSounds(s, s.open[f].connections, body, sub);
  }

  /** To the editor of every subscriber of f it is as if a packet with this body had been sent. */
  ghost predicate Heard(s: Server, s': Server, f: FileId, body: Body) {
    f in s.open ==> forall sub :: sub in s.open[f].connections ==>
      SoundsLike(Wire(s', sub.conn), Wire(s, sub.conn) + [Packet(sub.docId, body)], sub.docId)
  }

  lemma BroadcastHeard(s: Server, s': Server, f: FileId, body: Body)
    requires OnlyOnce(s) && f in s.open && s'.wires == Broadcast(s, s.open[f].connections, body).wires
    ensures Heard(s, s', f, body)
  {
    hide OnlyOnce, SoundsLike;
    forall sub | sub in s.open[f].connections
      ensures SoundsLike(Wire(s', sub.conn), Wire(s, sub.conn) + [Packet(sub.docId, body)], sub.docId)
    {
      BroadcastReaches(s, f, body, sub);
    }
  }

  /** It adds nothing to what the subscribers of others get. */
  lemma BroadcastPasses(s: Server, f: FileId, body: Body, g: FileId, sub: Sub)
    requires OnlyOnce(s) && f in s.open && g in s.open && f != g && sub in s.open[g].connections
    ensures SoundsLike(Wire(Broadcast(s, s.open[f].connections, body), sub.conn), Wire(s, sub.conn), sub.docId)
  {
    hide SoundsLike, NoRepeats;
    BroadcastSounds(s, s.open[f].connections, body, sub);
  }

  /** Only what an editor makes of the packets matters. */
  lemma InSyncSounds(wire: seq<Packet>, wire': seq<Packet>, docId: DocId, d: Doc, info: Info, flagged: bool, tracked: bool)
    requires SoundsLike(wire, wire', docId)
    ensures InSync(wire, docId, d, info, flagged, tracked) <==> InSync(wire', docId, d, info, flagged, tracked)
  {
  }

  lemma GensGoOn(wire: seq<Packet>, p: Packet, docId: DocId, dataGen: int)
    requires GensRun(Gens(wire, docId), dataGen)
    requires p.docId == docId && Numbered(p.body) && p.body.gen == dataGen
    ensures GensRun(Gens(wire + [p], docId), dataGen + 1)
  {
    ReplaySnoc(NEW_EDITOR, wire, p, docId);
  }

  // Changes and new states

  /** Only the info of f and the wires changed, by a broadcast to its subscribers, and the
      document of f. It is enough to look at the subscribers of f. */
  lemma BroadcastKeeps(s: Server, s': Server, f: FileId, body: Body, d: Doc, info: Info, on: iset<FileId>, on': iset<FileId>)
    requires OnlyOnce(s) && Populated(s) && AllInSync(s, on) && f in s.open
    requires s' == Broadcast(s, s.open[f].connections, body).(docs := s.docs[f := d], open := s.open[f := info])
    requires info.connections == s.open[f].connections
    requires forall wire, docId :: InSync(wire, docId, DocOf(s, f), s.open[f], f in s.changed, f in on) ==>
      InSync(wire + [Packet(docId, body)], docId, d, info, f in s.changed, f in on')
    requires forall g :: g != f ==> (g in on' <==> g in on)
    ensures OnlyOnce(s') && Populated(s') && AllInSync(s', on')
  {
    BroadcastIsSent(s, s.open[f].connections, body);
    SameSubscribers(s, s');
    hide OnlyOnce, Populated, ApplyAll, NoRepeats, SoundsLike;
    forall g, sub | g in s'.open && sub in s'.open[g].connections
      ensures InSync(Wire(s', sub.conn), sub.docId, DocOf(s', g), s'.open[g], g in s'.changed, g in on')
    {
      assert InSync(Wire(s, sub.conn), sub.docId, DocOf(s, g), s.open[g], g in s.changed, g in on);
      assert s'.wires == Broadcast(s, s.open[f].connections, body).wires;
      if g == f {
        BroadcastReaches(s, f, body, sub);
        hide InSync;
        InSyncSounds(Wire(s', sub.conn), Wire(s, sub.conn) + [Packet(sub.docId, body)], sub.docId, d, info, f in s.changed, f in on');
      } else {
        BroadcastPasses(s, f, body, g, sub);
        hide InSync;
        InSyncSounds(Wire(s', sub.conn), Wire(s, sub.conn), sub.docId, DocOf(s, g), s.open[g], g in s.changed, g in on);
      }
    }
  }

  lemma SameSubscribers(s: Server, s': Server)
    requires OnlyOnce(s) && Populated(s) && s'.open.Keys == s.open.Keys
    requires forall f :: f in s.open ==> s'.open[f].connections == s.open[f].connections
    ensures OnlyOnce(s') && Populated(s')
  {
    hide NoRepeats;
  }

  lemma ModifyIs(s: Server, f: FileId, c: Change, fromLink: bool)
    ensures var d, s' := DocOf(s, f), ApplyOp(s, Modify(f, c, fromLink));
      && s' == s.(docs := s.docs[f := d.(content := Apply(c, d.content))], open := s'.open, changed := s'.changed)
      && s'.open.Keys == s.open.Keys && s.changed <= s'.changed && s'.changed <= s.changed + {f}
      && (forall g :: g in s.open && g != f ==> s'.open[g] == s.open[g])
      && (f in s.open && (d.state.Loaded? || fromLink) ==>
            s'.open[f] == s.open[f].(pending := s.open[f].pending + [c]) && f in s'.changed)
      && (f in s.open && !d.state.Loaded? ==> s'.open[f] == s.open[f].(pending := s'.open[f].pending))
  {
    hide Apply;
  }

  /** A subscriber of the document that changes. */
  lemma ChangeInSync(wire: seq<Packet>, docId: DocId, d: Doc, info: Info, flagged: bool, c: Change, info': Info, flagged': bool, tracked: bool)
    requires InSync(wire, docId, d, info, flagged, tracked) && info'.dataGen == info.dataGen
    requires d.state.Loaded? ==> info'.pending == info.pending + [c] && flagged'
    ensures InSync(wire, docId, d.(content := Apply(c, d.content)), info', flagged', tracked)
  {
    ApplyAllSnoc(info.pending, c, Replay(NEW_EDITOR, wire, docId).content);
    hide Apply, ApplyAll, Replay, Gens;
  }

  lemma ModifyKeeps(s: Server, f: FileId, c: Change, fromLink: bool, on: iset<FileId>)
    requires Inv(s, on)
    ensures Inv(ApplyOp(s, Modify(f, c, fromLink)), on)
  {
    var s' := ApplyOp(s, Modify(f, c, fromLink));
    ModifyIs(s, f, c, fromLink);
    hide ApplyOp, Apply, InSync;
    assert forall g :: g in s.open ==> s'.open[g].connections == s.open[g].connections;
    SameSubscribers(s, s');
    RefsKept(s, s');
    hide OnlyOnce, Populated, Refs;
    forall g, sub | g in s'.open && sub in s'.open[g].connections
      ensures InSync(Wire(s', sub.conn), sub.docId, DocOf(s', g), s'.open[g], g in s'.changed, g in on)
    {
      assert InSync(Wire(s, sub.conn), sub.docId, DocOf(s, g), s.open[g], g in s.changed, g in on);
      if g == f {
        ChangeInSync(Wire(s, sub.conn), sub.docId, DocOf(s, f), s.open[f], f in s.changed, c, s'.open[f], f in s'.changed, f in on);
      }
    }
  }

  /** Applying the changes again would not change the loaded document. */
  predicate Harmless(changes: seq<Change>, d: Doc) {
    d.state.Loaded? ==> ApplyAll(changes, d.content) == d.content
  }

  /** The state packet brings every subscriber to the document as it now is, wherever it was
      before. That is the whole story exactly when the changes that wait make no difference. */
  lemma NewStateInSync(wire: seq<Packet>, docId: DocId, d: Doc, info: Info, flagged: bool, tracked: bool)
    requires GensRun(Gens(wire, docId), info.dataGen)
    ensures InSync(wire + [Packet(docId, StateOf(d, info.dataGen))], docId, d, info.(dataGen := info.dataGen + 1), flagged, tracked)
      <==> (tracked ==> Harmless(info.pending, d))
  {
    var p := Packet(docId, StateOf(d, info.dataGen));
    GensGoOn(wire, p, docId, info.dataGen);
    ReplaySnoc(NEW_EDITOR, wire, p, docId);
  }

  lemma RefsKept(s: Server, s': Server)
    requires Refs(s) && s'.refs == s.refs && s'.open.Keys == s.open.Keys && s.docs.Keys <= s'.docs.Keys
    ensures Refs(s')
  {
    forall f ensures RefCount(s', f) == (if f in s'.open then 1 else 0) && (f in s'.open ==> f in s'.docs) {
      assert RefCount(s, f) == (if f in s.open then 1 else 0) && (f in s.open ==> f in s.docs);
    }
  }

  lemma NewStateStep(s: Server, f: FileId, d: Doc)
    requires f in s.open
    ensures ApplyOp(s, NewState(f, d))
      == Broadcast(s.(docs := s.docs[f := d]), s.open[f].connections, StateOf(d, s.open[f].dataGen)).(
        open := s.open[f := s.open[f].(dataGen := s.open[f].dataGen + 1)])
  {
    assert DocOf(s.(docs := s.docs[f := d]), f) == d;
    hide Broadcast, DocOf, StateOf;
  }

  /** What a new state of an open document does, with the broadcast taken first. */
  lemma NewStateIs(s: Server, f: FileId, d: Doc)
    requires f in s.open
    ensures ApplyOp(s, NewState(f, d)) == Broadcast(s, s.open[f].connections, StateOf(d, s.open[f].dataGen)).(
      docs := s.docs[f := d], open := s.open[f := s.open[f].(dataGen := s.open[f].dataGen + 1)])
  {
    NewStateStep(s, f, d);
    BroadcastIsWires(s, s.(docs := s.docs[f := d]), s.open[f].connections, StateOf(d, s.open[f].dataGen));
    BroadcastIsWires(s, s, s.open[f].connections, StateOf(d, s.open[f].dataGen));
    hide Broadcast, StateOf, ApplyOp;
  }

  /** A new state brings a document that is open back on track or throws it off. */
  ghost function TrackOp(s: Server, op: DocOp, on: iset<FileId>): iset<FileId> {
    if op.NewState? && op.file in s.open then
      if Harmless(s.open[op.file].pending, op.doc) then on + iset{op.file} else on - iset{op.file}
    else on
  }

  lemma NewStateRefs(s: Server, f: FileId, d: Doc)
    requires Refs(s) && f in s.open
    ensures Refs(ApplyOp(s, NewState(f, d)))
  {
    NewStateIs(s, f, d);
    BroadcastIsSent(s, s.open[f].connections, StateOf(d, s.open[f].dataGen));
    hide ApplyOp, Broadcast, StateOf;
    RefsKept(s, ApplyOp(s, NewState(f, d)));
  }

  /** A document nobody has open may change as it likes. */
  lemma UnopenedKeeps(s: Server, f: FileId, d: Doc, on: iset<FileId>)
    requires Inv(s, on) && f !in s.open
    ensures Inv(s.(docs := s.docs[f := d]), on)
  {
    var s' := s.(docs := s.docs[f := d]);
    SameSubscribers(s, s');
    hide OnlyOnce, Populated, InSync;
    forall g, sub | g in s'.open && sub in s'.open[g].connections
      ensures InSync(Wire(s', sub.conn), sub.docId, DocOf(s', g), s'.open[g], g in s'.changed, g in on)
    {
      assert InSync(Wire(s, sub.conn), sub.docId, DocOf(s, g), s.open[g], g in s.changed, g in on);
    }
  }

  lemma OpenStateKeeps(s: Server, f: FileId, d: Doc, on: iset<FileId>, on': iset<FileId>)
    requires Inv(s, on) && f in s.open && (f in on' ==> Harmless(s.open[f].pending, d))
    requires forall g :: g != f ==> (g in on' <==> g in on)
    ensures Inv(ApplyOp(s, NewState(f, d)), on')
  {
    NewStateIs(s, f, d);
    NewStateRefs(s, f, d);
    hide OnlyOnce, Populated, ApplyOp, Broadcast, Refs, Harmless, Gens, Replay, ApplyAll, InSync, StateOf;
    var info, body := s.open[f], StateOf(d, s.open[f].dataGen);
    forall wire, docId | InSync(wire, docId, DocOf(s, f), info, f in s.changed, f in on)
      ensures InSync(wire + [Packet(docId, body)], docId, d, info.(dataGen := info.dataGen + 1), f in s.changed, f in on')
    {
      NumberedInSync(wire, docId, DocOf(s, f), info, f in s.changed, f in on);
      NewStateInSync(wire, docId, d, info, f in s.changed, f in on');
    }
    BroadcastKeeps(s, ApplyOp(s, NewState(f, d)), f, body, d, info.(dataGen := info.dataGen + 1), on, on');
  }

  lemma NumberedInSync(wire: seq<Packet>, docId: DocId, d: Doc, info: Info, flagged: bool, tracked: bool)
    requires InSync(wire, docId, d, info, flagged, tracked)
    ensures GensRun(Gens(wire, docId), info.dataGen)
  {
  }

  lemma NewStateKeeps(s: Server, f: FileId, d: Doc, on: iset<FileId>)
    requires Inv(s, on)
    ensures Inv(ApplyOp(s, NewState(f, d)), TrackOp(s, NewState(f, d), on))
  {
    hide Inv, Harmless;
    if f in s.open {
      hide ApplyOp;
      OpenStateKeeps(s, f, d, on, TrackOp(s, NewState(f, d), on));
    } else {
      UnopenedKeeps(s, f, d, on);
    }
  }

  /** The packet with the changes that wait brings a subscriber to the document. */
  lemma SentInSync(wire: seq<Packet>, docId: DocId, d: Doc, info: Info, flagged: bool, tracked: bool)
    requires InSync(wire, docId, d, info, flagged, tracked)
    ensures InSync(wire + [Packet(docId, Changes(info.dataGen, info.pending))], docId, d,
      info.(pending := [], dataGen := info.dataGen + 1), flagged, tracked)
  {
    var p := Packet(docId, Changes(info.dataGen, info.pending));
    GensGoOn(wire, p, docId, info.dataGen);
    ReplaySnoc(NEW_EDITOR, wire, p, docId);
  }

  lemma SendPendingKeeps(s: Server, f: FileId, on: iset<FileId>)
    requires Inv(s, on)
    ensures Inv(SendPendingChangesOf(s, f), on)
  {
    var s' := SendPendingChangesOf(s, f);
    if f in s.open && DocOf(s, f).state.Loaded? {
      var info := s.open[f];
      var body := Changes(info.dataGen, info.pending);
      var info' := info.(pending := [], dataGen := info.dataGen + 1);
      BroadcastIsSent(s, info.connections, body);
      RefsKept(s, s');
      assert s.docs[f := DocOf(s, f)] == s.docs;
      hide OnlyOnce, Populated, InSync, Refs, Broadcast;
      forall wire, docId | InSync(wire, docId, DocOf(s, f), info, f in s.changed, f in on)
        ensures InSync(wire + [Packet(docId, body)], docId, DocOf(s, f), info', f in s.changed, f in on)
      {
        SentInSync(wire, docId, DocOf(s, f), info, f in s.changed, f in on);
      }
      BroadcastKeeps(s, s', f, body, DocOf(s, f), info', on, on);
    }
  }

  /** The exact condition under which the subscribers of a document are on track after a new
      state, whether they were before or not. */
  lemma NewStateExactly(s: Server, f: FileId, d: Doc, on: iset<FileId>)
    requires Inv(s, on) && f in s.open
    ensures AllInSync(ApplyOp(s, NewState(f, d)), on + iset{f}) <==> Harmless(s.open[f].pending, d)
  {
    var info := s.open[f];
    var body := StateOf(d, info.dataGen);
    var info' := info.(dataGen := info.dataGen + 1);
    var s' := ApplyOp(s, NewState(f, d));
    NewStateIs(s, f, d);
    BroadcastIsSent(s, info.connections, body);
    if Harmless(info.pending, d) {
      NewStateKeeps(s, f, d, on);
    } else {
      var sub := info.connections[0];
      assert InSync(Wire(s, sub.conn), sub.docId, DocOf(s, f), info, f in s.changed, f in on);
      NewStateInSync(Wire(s, sub.conn), sub.docId, d, info, f in s.changed, true);
      BroadcastReaches(s, f, body, sub);
      assert s'.wires == Broadcast(s, info.connections, body).wires;
      InSyncSounds(Wire(s', sub.conn), Wire(s, sub.conn) + [Packet(sub.docId, body)], sub.docId, d, info', f in s.changed, true);
      assert !InSync(Wire(s', sub.conn), sub.docId, DocOf(s', f), s'.open[f], f in s'.changed, true);
    }
  }

  // Requests

  ghost function TrackOps(s: Server, ops: seq<DocOp>, on: iset<FileId>): iset<FileId> {
    if ops == [] then on
    else TrackOp(ApplyOps(s, ops[..|ops| - 1]), ops[|ops| - 1], TrackOps(s, ops[..|ops| - 1], on))
  }

  predicate BringsState(op: DocOp, f: FileId) {
    op.NewState? && op.file == f
  }

  lemma {:induction false} OpsKeepOpen(s: Server, ops: seq<DocOp>)
    ensures ApplyOps(s, ops).open.Keys == s.open.Keys
  {
    if ops != [] {
      OpsKeepOpen(s, ops[..|ops| - 1]);
    }
  }

  /** Without a new state a document stays on track or off it. */
  lemma {:induction false} TrackUntouched(s: Server, ops: seq<DocOp>, on: iset<FileId>, f: FileId)
    requires forall k :: 0 <= k < |ops| ==> !BringsState(ops[k], f) || f !in s.open
    ensures f in TrackOps(s, ops, on) <==> f in on
  {
    if ops != [] {
      var n := |ops| - 1;
      assert forall k :: 0 <= k < n ==> ops[..n][k] == ops[k];
      TrackUntouched(s, ops[..n], on, f);
      OpsKeepOpen(s, ops[..n]);
      hide Harmless, ApplyOps;
    }
  }

  /** The last new state of an open document decides. */
  lemma {:induction false} TrackDecided(s: Server, ops: seq<DocOp>, on: iset<FileId>, f: FileId, k: nat)
    requires f in s.open && k < |ops| && BringsState(ops[k], f)
    requires forall j :: k < j < |ops| ==> !BringsState(ops[j], f)
    ensures f in ApplyOps(s, ops[..k]).open
    ensures f in TrackOps(s, ops, on) <==> Harmless(ApplyOps(s, ops[..k]).open[f].pending, ops[k].doc)
  {
    var n := |ops| - 1;
    OpsKeepOpen(s, ops[..k]);
    TrackLast(s, ops, on, f);
    hide Harmless, ApplyOps, TrackOps;
    if k < n {
      assert forall j :: 0 <= j < n ==> ops[..n][j] == ops[j];
      assert ops[..n][..k] == ops[..k];
      TrackDecided(s, ops[..n], on, f, k);
    }
  }

  lemma TrackLast(s: Server, ops: seq<DocOp>, on: iset<FileId>, f: FileId)
    requires ops != []
    ensures var n := |ops| - 1;
      if BringsState(ops[n], f) && f in ApplyOps(s, ops[..n]).open then
        f in TrackOps(s, ops, on) <==> Harmless(ApplyOps(s, ops[..n]).open[f].pending, ops[n].doc)
      else f in TrackOps(s, ops, on) <==> f in TrackOps(s, ops[..n], on)
  {
    hide Harmless, ApplyOps;
  }

  lemma {:induction false} OpsKeep(s: Server, ops: seq<DocOp>, on: iset<FileId>)
    requires Inv(s, on)
    ensures Inv(ApplyOps(s, ops), TrackOps(s, ops, on))
  {
    if ops != [] {
      var init, last := ops[..|ops| - 1], ops[|ops| - 1];
      OpsKeep(s, init, on);
      match last
      case Modify(f, c, fromLink) => ModifyKeeps(ApplyOps(s, init), f, c, fromLink, TrackOps(s, init, on));
      case NewState(f, d) => NewStateKeeps(ApplyOps(s, init), f, d, TrackOps(s, init, on));
    }
  }

  lemma SentIs(s: Server, f: FileId)
    ensures var s' := SendPendingChangesOf(s, f);
      && s'.changed == s.changed && s'.open.Keys == s.open.Keys && s'.docs == s.docs
      && (f in s.open && DocOf(s, f).state.Loaded? ==> s'.open[f].pending == [])
      && forall g :: g in s.open && s.open[g].pending == [] ==> s'.open[g].pending == []
  {
    if f in s.open {
      BroadcastIsSent(s, s.open[f].connections, Changes(s.open[f].dataGen, s.open[f].pending));
      hide Broadcast;
    }
  }

  lemma {:induction false} SendInOrderKeeps(s: Server, order: seq<FileId>, on: iset<FileId>)
    requires Inv(s, on)
    ensures var s' := SendInOrder(s, order);
      && Inv(s', on) && s'.changed == s.changed && s'.open.Keys == s.open.Keys && s'.docs == s.docs
      && forall f :: f in s.open && f in order && DocOf(s, f).state.Loaded? ==> s'.open[f].pending == []
  {
    if order != [] {
      var init, f := order[..|order| - 1], order[|order| - 1];
      SendInOrderKeeps(s, init, on);
      var s1 := SendInOrder(s, init);
      SendPendingKeeps(s1, f, on);
      hide Inv, SendPendingChangesOf;
      SentIs(s1, f);
    }
  }

  lemma SendPendingChangesKeeps(s: Server, order: seq<FileId>, on: iset<FileId>)
    requires Inv(s, on) && Enumerates(order, s.changed)
    ensures Inv(SendPendingChanges(s, order), on) && SendPendingChanges(s, order).changed == {}
  {
    SendInOrderKeeps(s, order, on);
    var s1 := SendInOrder(s, order);
    var s2 := SendPendingChanges(s, order);
    forall f, sub | f in s2.open && sub in s2.open[f].connections
      ensures InSync(Wire(s2, sub.conn), sub.docId, DocOf(s2, f), s2.open[f], f in s2.changed, f in on)
    {
      assert InSync(Wire(s1, sub.conn), sub.docId, DocOf(s1, f), s1.open[f], f in s1.changed, f in on);
    }
  }

  // Opening

  ghost function Unopened(s: Server): iset<FileId> {
    iset f: FileId | f !in s.open
  }

  /** Nobody can be misled about a document nobody has. */
  lemma UnopenedOnTrack(s: Server, on: iset<FileId>)
    requires Inv(s, on)
    ensures Inv(s, on + Unopened(s))
  {
    hide OnlyOnce, Populated, Refs, InSync;
    forall f, sub | f in s.open && sub in s.open[f].connections
      ensures InSync(Wire(s, sub.conn), sub.docId, DocOf(s, f), s.open[f], f in s.changed, f in on + Unopened(s))
    {
      assert InSync(Wire(s, sub.conn), sub.docId, DocOf(s, f), s.open[f], f in s.changed, f in on);
    }
  }

  ghost predicate Unused(wire: seq<Packet>, docId: DocId) {
    forall k :: 0 <= k < |wire| ==> wire[k].docId != docId
  }

  lemma {:induction false} UnusedHasNoGens(wire: seq<Packet>, docId: DocId)
    requires Unused(wire, docId)
    ensures Gens(wire, docId) == []
  {
    if wire != [] {
      UnusedHasNoGens(wire[..|wire| - 1], docId);
    }
  }

  /** Clients number what they open, so a request to open has an id the connection has not
      seen. */
  ghost predicate MayOpen(s: Server, docId: DocId, conn: ConnId) {
    conn in s.clients && Unused(Wire(s, conn), docId)
  }

  /** Whoever subscribes has been told so. */
  lemma SubscriberIsUsed(s: Server, f: FileId, sub: Sub, on: iset<FileId>)
    requires AllInSync(s, on) && f in s.open && sub in s.open[f].connections
    ensures !Unused(Wire(s, sub.conn), sub.docId)
  {
    assert InSync(Wire(s, sub.conn), sub.docId, DocOf(s, f), s.open[f], f in s.changed, f in on);
    if Unused(Wire(s, sub.conn), sub.docId) {
      UnusedHasNoGens(Wire(s, sub.conn), sub.docId);
    }
  }

  /** A packet for one id is nothing to another. */
  lemma OtherIdKeeps(wire: seq<Packet>, p: Packet, docId: DocId, d: Doc, info: Info, flagged: bool, tracked: bool)
    requires p.docId != docId
    ensures InSync(wire + [p], docId, d, info, flagged, tracked) <==> InSync(wire, docId, d, info, flagged, tracked)
  {
    ReplaySnoc(NEW_EDITOR, wire, p, docId);
    assert Gens(wire + [p], docId) == Gens(wire, docId);
  }

  lemma NewSubscriberInSync(wire: seq<Packet>, docId: DocId, d: Doc, info: Info, flagged: bool, tracked: bool)
    requires Unused(wire, docId) && (tracked ==> Harmless(info.pending, d))
    ensures InSync(wire + [Packet(docId, StateOf(d, info.dataGen))], docId, d, info, flagged, tracked)
  {
    UnusedHasNoGens(wire, docId);
    ReplaySnoc(NEW_EDITOR, wire, Packet(docId, StateOf(d, info.dataGen)), docId);
  }

  function SubsOf(s: Server, f: FileId): seq<Sub> {
    if f in s.open then s.open[f].connections else []
  }

  /** f has one more subscriber. */
  ghost predicate Opened(s: Server, s': Server, f: FileId, sub: Sub) {
    && s'.open.Keys == s.open.Keys + {f}
    && s'.open[f].connections == SubsOf(s, f) + [sub]
    && forall g :: g in s.open && g != f ==> s'.open[g] == s.open[g]
  }

  lemma OpenedOnlyOnce(s: Server, s': Server, f: FileId, sub: Sub)
    requires Opened(s, s', f, sub) && OnlyOnce(s) && Populated(s)
    requires forall g :: g in s.open ==> sub !in s.open[g].connections
    ensures OnlyOnce(s') && Populated(s')
  {
    assert NoRepeats(s'.open[f].connections);
    assert forall x :: x in s'.open[f].connections <==> x in SubsOf(s, f) || x == sub;
    hide NoRepeats;
  }

  // What opening does, in two steps

  lemma LoadKeepsRefs(s: Server, f: FileId, loaded: Doc)
    requires Refs(s)
    ensures var s' := LoadDocument(s, f, loaded); Refs(s') && s' == s.(docs := s'.docs) && f in s'.docs
    ensures forall g :: g in s.docs ==> DocOf(LoadDocument(s, f, loaded), g) == DocOf(s, g)
  {
    RefsKept(s, LoadDocument(s, f, loaded));
  }

  lemma EnterKeepsRefs(s: Server, f: FileId)
    requires Refs(s) && f in s.docs
    ensures var s' := EnterDocument(s, f);
      && Refs(s') && s' == s.(open := s'.open, refs := s'.refs) && s'.open.Keys == s.open.Keys + {f}
      && SubsOf(s', f) == SubsOf(s, f) && forall g :: g in s.open ==> s'.open[g] == s.open[g]
    ensures f !in s.open ==> EnterDocument(s, f).open[f] == Info(1, [], [])
  {
    var s' := EnterDocument(s, f);
    forall g ensures RefCount(s', g) == (if g in s'.open then 1 else 0) && (g in s'.open ==> g in s'.docs) {
      assert RefCount(s, g) == (if g in s.open then 1 else 0) && (g in s.open ==> g in s.docs);
    }
  }

  lemma SubscribeAdds(s: Server, f: FileId, docId: DocId, conn: ConnId)
    requires f in s.open && conn in s.clients
    ensures var s' := Subscribe(s, f, docId, conn);
      && s'.docs == s.docs && s'.refs == s.refs && s'.changed == s.changed
      && s'.open == s.open[f := s.open[f].(connections := s.open[f].connections + [Sub(conn, docId)])]
      && s'.wires == s.wires[conn := Wire(s, conn) + [Packet(docId, StateOf(DocOf(s, f), s.open[f].dataGen))]]
  {
    hide StateOf;
  }

  /** All there is to say of the server after an open request of a client that is known. */
  ghost predicate OpenDone(s: Server, s': Server, f: FileId, docId: DocId, conn: ConnId) {
    && Opened(s, s', f, Sub(conn, docId))
    && (forall g :: g in s.open ==> DocOf(s', g) == DocOf(s, g))
    && (if f in s.open then s'.open[f] == s.open[f].(connections := s'.open[f].connections) else s'.open[f].pending == [])
    && s'.wires == s.wires[conn := Wire(s, conn) + [Packet(docId, StateOf(DocOf(s', f), s'.open[f].dataGen))]]
    && s'.changed == s.changed
  }

  /** The document is entered as s1 has it and then subscribed to. */
  lemma SubscribedIsDone(s: Server, s1: Server, s': Server, f: FileId, docId: DocId, conn: ConnId)
    requires s1.open.Keys == s.open.Keys + {f} && SubsOf(s1, f) == SubsOf(s, f) && (f in s.open || s1.open[f].pending == [])
    requires forall g :: g in s.open ==> s1.open[g] == s.open[g] && DocOf(s1, g) == DocOf(s, g)
    requires s1.wires == s.wires && s1.changed == s.changed && s'.docs == s1.docs && s'.changed == s1.changed
    requires s'.open == s1.open[f := s1.open[f].(connections := s1.open[f].connections + [Sub(conn, docId)])]
    requires s'.wires == s1.wires[conn := Wire(s1, conn) + [Packet(docId, StateOf(DocOf(s1, f), s1.open[f].dataGen))]]
    ensures OpenDone(s, s', f, docId, conn)
  {
    hide StateOf;
  }

  lemma OpenRefs(s: Server, f: FileId, docId: DocId, conn: ConnId, loaded: Doc)
    requires Refs(s) && conn in s.clients
    ensures Refs(OpenDocumentForClient(s, f, docId, conn, loaded))
  {
    var s0 := LoadDocument(s, f, loaded);
    var s1 := EnterDocument(s0, f);
    LoadKeepsRefs(s, f, loaded);
    EnterKeepsRefs(s0, f);
    SubscribeAdds(s1, f, docId, conn);
    hide LoadDocument, EnterDocument, Subscribe, StateOf, SubsOf;
    RefsKept(s1, Subscribe(s1, f, docId, conn));
  }

  lemma OpenIsDone(s: Server, f: FileId, docId: DocId, conn: ConnId, loaded: Doc)
    requires Refs(s) && conn in s.clients
    ensures OpenDone(s, OpenDocumentForClient(s, f, docId, conn, loaded), f, docId, conn)
  {
    var s0 := LoadDocument(s, f, loaded);
    var s1 := EnterDocument(s0, f);
    assert forall g :: g in s.open ==> g in s.docs;
    LoadKeepsRefs(s, f, loaded);
    EnterKeepsRefs(s0, f);
    SubscribeAdds(s1, f, docId, conn);
    hide LoadDocument, EnterDocument, Subscribe, StateOf, OpenDone, Refs, Wire;
    SubscribedIsDone(s, s1, Subscribe(s1, f, docId, conn), f, docId, conn);
  }

  lemma OpenKeeps(s: Server, f: FileId, docId: DocId, conn: ConnId, loaded: Doc, on: iset<FileId>)
    requires Inv(s, on) && s.changed == {} && MayOpen(s, docId, conn)
    ensures Inv(OpenDocumentForClient(s, f, docId, conn, loaded), on)
    ensures OpenDocumentForClient(s, f, docId, conn, loaded).changed == {}
  {
    OpenIsDone(s, f, docId, conn, loaded);
    OpenRefs(s, f, docId, conn, loaded);
    hide Refs, OpenDocumentForClient, InSync, StateOf;
    var s' := OpenDocumentForClient(s, f, docId, conn, loaded);
    forall g | g in s.open ensures Sub(conn, docId) !in s.open[g].connections {
      if Sub(conn, docId) in s.open[g].connections {
        SubscriberIsUsed(s, g, Sub(conn, docId), on);
      }
    }
    OpenedOnlyOnce(s, s', f, Sub(conn, docId));
    forall g, sub | g in s'.open && sub in s'.open[g].connections
      ensures InSync(Wire(s', sub.conn), sub.docId, DocOf(s', g), s'.open[g], g in s'.changed, g in on)
    {
      if sub == Sub(conn, docId) {
        OpenerInSync(s, s', f, docId, conn, on);
      } else {
        OldSubscriberInSync(s, s', f, docId, conn, g, sub, on);
      }
    }
  }

  /** Changes may still wait on a document somebody else has open; when it is on track they make
      no difference. */
  lemma WaitingHarmless(s: Server, f: FileId, on: iset<FileId>)
    requires Populated(s) && AllInSync(s, on) && s.changed == {} && f in s.open && f in on
    ensures Harmless(s.open[f].pending, DocOf(s, f))
  {
    var sub := s.open[f].connections[0];
    assert InSync(Wire(s, sub.conn), sub.docId, DocOf(s, f), s.open[f], f in s.changed, f in on);
  }

  lemma OpenerInSync(s: Server, s': Server, f: FileId, docId: DocId, conn: ConnId, on: iset<FileId>)
    requires Populated(s) && AllInSync(s, on) && s.changed == {} && MayOpen(s, docId, conn) && OpenDone(s, s', f, docId, conn)
    ensures InSync(Wire(s', conn), docId, DocOf(s', f), s'.open[f], f in s'.changed, f in on)
  {
    if f in s.open && f in on {
      WaitingHarmless(s, f, on);
    }
    assert f in on ==> Harmless(s'.open[f].pending, DocOf(s', f));
    hide AllInSync, InSync, Harmless, Unused, StateOf;
    NewSubscriberInSync(Wire(s, conn), docId, DocOf(s', f), s'.open[f], f in s'.changed, f in on);
  }

  lemma OldSubscriberInSync(s: Server, s': Server, f: FileId, docId: DocId, conn: ConnId, g: FileId, sub: Sub, on: iset<FileId>)
    requires AllInSync(s, on) && MayOpen(s, docId, conn) && OpenDone(s, s', f, docId, conn)
    requires g in s'.open && sub in s'.open[g].connections && sub != Sub(conn, docId)
    ensures InSync(Wire(s', sub.conn), sub.docId, DocOf(s', g), s'.open[g], g in s'.changed, g in on)
  {
    hide InSync, Unused, StateOf;
    assert sub in SubsOf(s, g);
    assert InSync(Wire(s, sub.conn), sub.docId, DocOf(s, g), s.open[g], g in s.changed, g in on);
    SameSyncs(Wire(s, sub.conn), sub.docId, DocOf(s, g), s.open[g], s'.open[g], g in s.changed, g in on);
    if sub.conn == conn {
      OtherIdKeeps(Wire(s, conn), Packet(docId, StateOf(DocOf(s', f), s'.open[f].dataGen)), sub.docId, DocOf(s, g), s'.open[g],
                   g in s.changed, g in on);
    }
  }

  /** Who else subscribes makes no difference. */
  lemma SameSyncs(wire: seq<Packet>, docId: DocId, d: Doc, info: Info, info': Info, flagged: bool, tracked: bool)
    requires info.dataGen == info'.dataGen && info.pending == info'.pending
    ensures InSync(wire, docId, d, info, flagged, tracked) <==> InSync(wire, docId, d, info', flagged, tracked)
  {
  }
}
