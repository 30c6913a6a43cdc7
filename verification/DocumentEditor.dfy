/** An open editor (Editor/DocumentEditorBase.cpp, Editor/DocumentEditor.h): its copy of the
    server's document, the copy its widgets edit, and the hot spots where they may differ. */
module DocumentEditor {
  import Decimals
  import opened DocumentProtocol
  import opened DocumentSync
  import opened Documents
  import opened Vectors

  datatype Kind = Set | Clear | Compress | Revert | Insert(index: nat) | Remove(index: nat)

  datatype Notification = Notification(kind: Kind, change: Documents.Change)

  datatype DocumentLink = DocumentLink(source: string, remote: Path, local: Path)

  /** An entry of a change request: a change, or a link to add or remove. */
  datatype Queued = Modified(n: Notification) | LinkAdded(link: DocumentLink) | LinkRemoved(link: DocumentLink)

  // Hot spots

  ghost predicate Covered(hotSpots: seq<Path>, k: Path) {
    exists i :: 0 <= i < |hotSpots| && hotSpots[i] <= k
  }

  /** The copies agree wherever no hot spot is. */
  ghost predicate AgreeElsewhere(client: Content, server: Content, hotSpots: seq<Path>) {
    forall k :: !Covered(hotSpots, k) ==> SameAt(client, server, k)
  }

  /** The first hot spot that lies at or above the path, or that the path lies above. */
  function FirstOnPath(hotSpots: seq<Path>, path: Path): (i: nat)
    ensures i <= |hotSpots|
    ensures i < |hotSpots| ==> hotSpots[i] <= path || path <= hotSpots[i]
    ensures forall j :: 0 <= j < i ==> !(hotSpots[j] <= path) && !(path <= hotSpots[j])
  {
    if hotSpots == [] || hotSpots[0] <= path || path <= hotSpots[0] then 0 else 1 + FirstOnPath(hotSpots[1..], path)
  }

  function WithHotSpot(hotSpots: seq<Path>, path: Path): seq<Path> {
    var i := FirstOnPath(hotSpots, path);
    if i == |hotSpots| then hotSpots + [path]
    else if hotSpots[i] <= path then hotSpots
    else hotSpots[i := path]
  }

  /** Merging loses nothing and adds no more than the path. */
  lemma WithHotSpotCovers(hotSpots: seq<Path>, path: Path, k: Path)
    ensures Covered(WithHotSpot(hotSpots, path), k) <==> Covered(hotSpots, k) || path <= k
  {
    var i := FirstOnPath(hotSpots, path);
    var merged := WithHotSpot(hotSpots, path);
    if Covered(hotSpots, k) {
      var j :| 0 <= j < |hotSpots| && hotSpots[j] <= k;
      assert merged[j] <= k;
    }
    if path <= k {
      assert merged[i] <= k;
    }
    if Covered(merged, k) {
      var j :| 0 <= j < |merged| && merged[j] <= k;
      assert (j < |hotSpots| && hotSpots[j] <= k) || path <= k;
    }
  }

  /** Whichever copy a change is made to, its path is hot afterwards and the rest still agrees. */
  lemma ChangeUnderHotSpot(client: Content, server: Content, hotSpots: seq<Path>, c: Documents.Change)
    requires AgreeElsewhere(client, server, hotSpots)
    ensures AgreeElsewhere(Apply(c, client), server, WithHotSpot(hotSpots, c.path))
    ensures AgreeElsewhere(client, Apply(c, server), WithHotSpot(hotSpots, c.path))
  {
    forall k | !Covered(WithHotSpot(hotSpots, c.path), k)
      ensures SameAt(Apply(c, client), server, k) && SameAt(client, Apply(c, server), k)
    {
      WithHotSpotCovers(hotSpots, c.path, k);
      ApplyOutside(c, client, k);
      ApplyOutside(c, server, k);
    }
  }

  /** The change that takes over the server's subtree. */
  function SyncChange(server: Content, hotSpot: Path): Documents.Change {
    Documents.Change(hotSpot, _ => Under(server, hotSpot))
  }

  lemma SyncedUnder(client: Content, server: Content, hotSpot: Path, k: Path)
    ensures hotSpot <= k ==> SameAt(Apply(SyncChange(server, hotSpot), client), server, k)
    ensures !(hotSpot <= k) ==> SameAt(Apply(SyncChange(server, hotSpot), client), client, k)
  {
  }

  lemma CoveredBehind(hotSpots: seq<Path>, k: Path)
    requires Covered(hotSpots, k) && !(hotSpots[0] <= k)
    ensures Covered(hotSpots[1..], k)
  {
    var i :| 0 <= i < |hotSpots| && hotSpots[i] <= k;
    assert hotSpots[1..][i - 1] <= k;
  }

  /** Synced hot spots agree; so do places that were no hot spots. */
  lemma SyncShrinks(client: Content, server: Content, hotSpots: seq<Path>)
    requires hotSpots != [] && AgreeElsewhere(client, server, hotSpots)
    ensures AgreeElsewhere(Apply(SyncChange(server, hotSpots[0]), client), server, hotSpots[1..])
  {
    forall k | !Covered(hotSpots[1..], k)
      ensures SameAt(Apply(SyncChange(server, hotSpots[0]), client), server, k)
    {
      SyncedUnder(client, server, hotSpots[0], k);
      if !(hotSpots[0] <= k) && Covered(hotSpots, k) {
        CoveredBehind(hotSpots, k);
      }
    }
  }

  lemma NowhereHot(client: Content, server: Content)
    requires AgreeElsewhere(client, server, [])
    ensures client == server
  {
    forall k: Path ensures (k in client <==> k in server) && (k in client ==> client[k] == server[k]) {
      assert !Covered([], k) && SameAt(client, server, k);
    }
  }

  // Interleavings

  function SyncAll(client: Content, server: Content, hotSpots: seq<Path>): Content
    decreases |hotSpots|
  {
    if hotSpots == [] then client else SyncAll(Apply(SyncChange(server, hotSpots[0]), client), server, hotSpots[1..])
  }

  lemma {:induction false} SyncAllEqual(client: Content, server: Content, hotSpots: seq<Path>)
    requires AgreeElsewhere(client, server, hotSpots)
    ensures SyncAll(client, server, hotSpots) == server
    decreases |hotSpots|
  {
    if hotSpots == [] {
      NowhereHot(client, server);
    } else {
      SyncShrinks(client, server, hotSpots);
      SyncAllEqual(Apply(SyncChange(server, hotSpots[0]), client), server, hotSpots[1..]);
    }
  }

  datatype Step = ByWidget(change: Documents.Change) | ByServer(change: Documents.Change)

  datatype Copies = Copies(client: Content, server: Content, hotSpots: seq<Path>)

  function After(c: Copies, steps: seq<Step>): Copies {
    if steps == [] then c
    else
      var c', step := After(c, steps[..|steps| - 1]), steps[|steps| - 1];
      var hotSpots := WithHotSpot(c'.hotSpots, step.change.path);
      match step
      case ByWidget(x) => Copies(Apply(x, c'.client), c'.server, hotSpots)
      case ByServer(x) => Copies(c'.client, Apply(x, c'.server), hotSpots)
  }

  lemma OneStep(c: Copies, step: Step)
    ensures After(c, [step]) == match step
      case ByWidget(x) => Copies(Apply(x, c.client), c.server, WithHotSpot(c.hotSpots, x.path))
      case ByServer(x) => Copies(c.client, Apply(x, c.server), WithHotSpot(c.hotSpots, x.path))
  {
    assert [step][..0] == [];
  }

  function ServerChanges(steps: seq<Step>): seq<Documents.Change> {
    if steps == [] then []
    else ServerChanges(steps[..|steps| - 1]) + if steps[|steps| - 1].ByServer? then [steps[|steps| - 1].change] else []
  }

  lemma {:induction false} AnyInterleavingAgrees(d: Content, steps: seq<Step>)
    ensures var c := After(Copies(d, d, []), steps);
      AgreeElsewhere(c.client, c.server, c.hotSpots) && c.server == ApplyAll(ServerChanges(steps), d)
  {
    if steps != [] {
      var init, step := steps[..|steps| - 1], steps[|steps| - 1];
      AnyInterleavingAgrees(d, init);
      var c := After(Copies(d, d, []), init);
      ChangeUnderHotSpot(c.client, c.server, c.hotSpots, step.change);
      hide WithHotSpot, AgreeElsewhere, Apply, ApplyAll;
      ApplyAllSnoc(ServerChanges(init), step.change, d);
      assert ServerChanges(init) + [] == ServerChanges(init);
    }
  }

  /** However edits of widgets and changes of the server interleave, taking over the hot spots
      leaves the client with what the server's changes alone make of the document. */
  lemma InterleavingsConverge(d: Content, steps: seq<Step>)
    ensures var c := After(Copies(d, d, []), steps);
      SyncAll(c.client, c.server, c.hotSpots) == ApplyAll(ServerChanges(steps), d)
  {
    var c := After(Copies(d, d, []), steps);
    AnyInterleavingAgrees(d, steps);
    SyncAllEqual(c.client, c.server, c.hotSpots);
  }

  // What is sent

  function Flatten(batches: seq<seq<Queued>>): seq<Queued> {
    if batches == [] then [] else Flatten(batches[..|batches| - 1]) + batches[|batches| - 1]
  }

  /** The links into what is removed at or below a path. */
  function LinksUnder(links: seq<DocumentLink>, path: Path): seq<Queued> {
    if links == [] then []
    else
      var last := links[|links| - 1];
      LinksUnder(links[..|links| - 1], path) + if path <= last.local then [LinkRemoved(last)] else []
  }

  /** The path element of an entry of a list. */
  function Element(index: nat): string {
    "[" + Decimals.ToString(index) + "]"
  }

  /** A change with the links it takes away when it removes an entry of a list. */
  function EntriesFor(n: Notification, links: seq<DocumentLink>): seq<Queued> {
    [Modified(n)] + if n.kind.Remove? then LinksUnder(links, n.change.path + [Element(n.kind.index)]) else []
  }

  /** Which links lead to a path or below it. */
  ghost function LeadUnder(links: seq<DocumentLink>, path: Path): (r: seq<bool>)
    ensures |r| == |links|
  {
    seq(|links|, k requires 0 <= k < |links| => path <= links[k].local)
  }

  /** Each of some links ends. */
  function Ends(links: seq<DocumentLink>): (r: seq<Queued>)
    ensures |r| == |links| && forall j :: 0 <= j < |links| ==> r[j] == LinkRemoved(links[j])
  {
    seq(|links|, j requires 0 <= j < |links| => LinkRemoved(links[j]))
  }

  lemma LeadUnderSnoc(links: seq<DocumentLink>, path: Path)
    requires links != []
    ensures var n := |links| - 1; LeadUnder(links, path) == LeadUnder(links[..n], path) + [path <= links[n].local]
  {
  }

  lemma LinksUnderSnoc(links: seq<DocumentLink>, path: Path)
    requires links != []
    ensures var n := |links| - 1;
      LinksUnder(links, path) == LinksUnder(links[..n], path) + if path <= links[n].local then [LinkRemoved(links[n])] else []
  {
  }

  lemma {:induction false} LinksUnderAre(links: seq<DocumentLink>, path: Path) returns (at: seq<nat>)
    ensures SetAt(at, LeadUnder(links, path)) && (forall j :: 0 <= j < |at| ==> at[j] < |links|)
    ensures LinksUnder(links, path) == Ends(Picked(links, at))
  {
    at := [];
    if links == [] {
      NoneSet();
      assert LeadUnder(links, path) == [];
    } else {
      var n, flag := |links| - 1, path <= links[|links| - 1].local;
      LeadUnderSnoc(links, path);
      LinksUnderSnoc(links, path);
      hide SetAt, LeadUnder, LinksUnder;
      var init := LinksUnderAre(links[..n], path);
      PickedSnoc(links, init, LeadUnder(links[..n], path), flag);
      at := if flag then init + [n] else init;
    }
  }

  /** A change is queued itself. After it comes, in order, the end of each link that leads into the
      entry of a list it removes, if it does. */
  lemma EntriesAre(n: Notification, links: seq<DocumentLink>) returns (at: seq<nat>)
    ensures !n.kind.Remove? ==> EntriesFor(n, links) == [Modified(n)]
    ensures n.kind.Remove? ==>
      && SetAt(at, LeadUnder(links, n.change.path + ["[" + Decimals.ToString(n.kind.index) + "]"]))
      && (forall j :: 0 <= j < |at| ==> at[j] < |links|)
      && EntriesFor(n, links) == [Modified(n)] + Ends(Picked(links, at))
  {
    hide Decimals.ToString, SetAt, LeadUnder;
    at := [];
    if n.kind.Remove? {
      at := LinksUnderAre(links, n.change.path + [Element(n.kind.index)]);
    }
  }

  class DocumentEditor {
    var loaded: bool
    var clientCopy: Content
    var serverCopy: Content
    var hotSpots: seq<Path>
    var links: seq<DocumentLink>
    var pendingChanges: seq<Queued>
    var sent: seq<seq<Queued>>
    var unacknowledgedChanges: int
    var ignoreChanges: bool
    var transactionEnabled: bool

    constructor ()
      ensures Valid() && Queue() == [] && View() == NEW_EDITOR
    {
      loaded, clientCopy, serverCopy := false, map[], map[];
      hotSpots, links, pendingChanges, sent := [], [], [], [];
      unacknowledgedChanges, ignoreChanges, transactionEnabled := 0, false, false;
    }

    ghost predicate Valid()
      reads this
    {
      && AgreeElsewhere(clientCopy, serverCopy, hotSpots)
      && (!transactionEnabled ==> pendingChanges == [])
      && unacknowledgedChanges == 0 && !ignoreChanges
    }

    function View(): View
      reads this
    {
      DocumentSync.View(loaded, serverCopy)
    }

    function Both(): Copies
      reads this
    {
      Copies(clientCopy, serverCopy, hotSpots)
    }

    /** All that was ever queued, in order: what went out and what waits. */
    function Queue(): seq<Queued>
      reads this
    {
      Flatten(sent) + pendingChanges
    }

    method AddHotSpot(path: Path)
      modifies this`hotSpots
      ensures hotSpots == WithHotSpot(old(hotSpots), path)
    {
      var i := 0;
      while i < |hotSpots|
        invariant i <= |hotSpots| && hotSpots == old(hotSpots)
        invariant forall j :: 0 <= j < i ==> !(hotSpots[j] <= path) && !(path <= hotSpots[j])
      {
        if hotSpots[i] <= path {
          return;
        } else if path <= hotSpots[i] {
          hotSpots := hotSpots[i := path];
          return;
        }
        i := i + 1;
      }
      hotSpots := hotSpots + [path];
    }

    /** What waits goes out as one request; nothing is sent when nothing waits. */
    method CommitQueuedChanges()
      modifies this`pendingChanges, this`sent, this`transactionEnabled
      ensures Queue() == old(Queue()) && pendingChanges == [] && !transactionEnabled
      ensures sent == if old(pendingChanges) == [] then old(sent) else old(sent) + [old(pendingChanges)]
    {
      if |pendingChanges| != 0 {
        assert (sent + [pendingChanges])[..|sent|] == sent;
        sent := sent + [pendingChanges];
        pendingChanges := [];
      }
      transactionEnabled := false;
    }

    method BeginTransaction()
      modifies this`transactionEnabled
      ensures transactionEnabled
    {
      transactionEnabled := true;
    }

    method QueueChange(n: Notification)
      modifies this`pendingChanges, this`sent, this`transactionEnabled, this`hotSpots
      ensures hotSpots == WithHotSpot(old(hotSpots), n.change.path)
      ensures Queue() == old(Queue()) + EntriesFor(n, links)
      ensures transactionEnabled == old(transactionEnabled)
      ensures transactionEnabled ==> sent == old(sent)
      ensures !transactionEnabled ==> pendingChanges == [] && sent == old(sent) + [old(pendingChanges) + EntriesFor(n, links)]
    {
      hide WithHotSpot;
      var entries := Entries(n, links);
      pendingChanges := pendingChanges + entries;
      assert Flatten(sent) + pendingChanges == old(Queue()) + entries;
      AddHotSpot(n.change.path);
      if !transactionEnabled {
        CommitQueuedChanges();
      }
    }

    static method Entries(n: Notification, links: seq<DocumentLink>) returns (entries: seq<Queued>)
      ensures entries == EntriesFor(n, links)
    {
      entries := [Modified(n)];
      if n.kind.Remove? {
        var path := n.change.path + [Element(n.kind.index)];
        var i := 0;
        while i < |links|
          invariant i <= |links|
          invariant entries == [Modified(n)] + LinksUnder(links[..i], path)
        {
          assert links[..i + 1][..i] == links[..i];
          if path <= links[i].local {
            entries := entries + [LinkRemoved(links[i])];
          }
          i := i + 1;
        }
        assert links[..i] == links;
      }
    }

    method QueueLink(entry: Queued)
      modifies this`pendingChanges, this`sent, this`transactionEnabled
      ensures Queue() == old(Queue()) + [entry]
      ensures transactionEnabled == old(transactionEnabled)
      ensures transactionEnabled ==> sent == old(sent)
      ensures !transactionEnabled ==> pendingChanges == [] && sent == old(sent) + [old(pendingChanges) + [entry]]
    {
      pendingChanges := pendingChanges + [entry];
      if !transactionEnabled {
        CommitQueuedChanges();
      }
    }

    /** The client copy changes and tells the editor, which queues the change unless it is
        taking over what the server has. */
    method ChangeClientCopy(n: Notification)
      modifies this`clientCopy, this`pendingChanges, this`sent, this`transactionEnabled, this`hotSpots
      ensures clientCopy == Apply(n.change, old(clientCopy))
      ensures transactionEnabled == old(transactionEnabled)
      ensures ignoreChanges ==> pendingChanges == old(pendingChanges) && sent == old(sent)
      ensures hotSpots == if ignoreChanges then old(hotSpots) else WithHotSpot(old(hotSpots), n.change.path)
      ensures !ignoreChanges ==> Queue() == old(Queue()) + EntriesFor(n, links)
      ensures !ignoreChanges && transactionEnabled ==> sent == old(sent)
      ensures !ignoreChanges && !transactionEnabled ==> pendingChanges == []
      ensures !ignoreChanges && !transactionEnabled ==> sent == old(sent) + [old(pendingChanges) + EntriesFor(n, links)]
    {
      clientCopy := Apply(n.change, clientCopy);
      if !ignoreChanges {
        QueueChange(n);
      }
    }

    /** A widget edits the document. */
    method Edit(n: Notification)
      requires Valid()
      modifies this`clientCopy, this`pendingChanges, this`sent, this`transactionEnabled, this`hotSpots
      ensures Valid() && clientCopy == Apply(n.change, old(clientCopy)) && View() == old(View())
      ensures Queue() == old(Queue()) + EntriesFor(n, old(links))
      ensures transactionEnabled == old(transactionEnabled)
      ensures sent == if transactionEnabled then old(sent) else old(sent) + [EntriesFor(n, old(links))]
      ensures Both() == After(old(Both()), [ByWidget(n.change)])
    {
      OneStep(Both(), ByWidget(n.change));
      ChangeUnderHotSpot(clientCopy, serverCopy, hotSpots, n.change);
      assert [] + EntriesFor(n, links) == EntriesFor(n, links);
      ChangeClientCopy(n);
    }

    /** A subtree of the client copy becomes the server's. */
    method SyncAt(hotSpot: Path)
      requires ignoreChanges
      modifies this`clientCopy, this`pendingChanges, this`sent, this`transactionEnabled, this`hotSpots
      ensures clientCopy == Apply(SyncChange(serverCopy, hotSpot), old(clientCopy))
      ensures pendingChanges == old(pendingChanges) && sent == old(sent)
      ensures transactionEnabled == old(transactionEnabled) && hotSpots == old(hotSpots)
    {
      ChangeClientCopy(Notification(Set, SyncChange(serverCopy, hotSpot)));
    }

    /** Afterwards the copies are the same, and taking over the server's copy has queued nothing. */
    method SyncHotSpots()
      requires Valid()
      modifies this`clientCopy, this`pendingChanges, this`sent, this`transactionEnabled, this`hotSpots, this`ignoreChanges
      ensures Valid() && clientCopy == serverCopy && hotSpots == []
      ensures View() == old(View()) && pendingChanges == old(pendingChanges) && sent == old(sent)
      ensures links == old(links) && transactionEnabled == old(transactionEnabled)
    {
      ignoreChanges := true;
      var i := 0;
      while i < |hotSpots|
        invariant i <= |hotSpots| && hotSpots == old(hotSpots)
        invariant AgreeElsewhere(clientCopy, serverCopy, hotSpots[i..])
        invariant ignoreChanges && View() == old(View()) && links == old(links)
        invariant pendingChanges == old(pendingChanges) && sent == old(sent)
        invariant transactionEnabled == old(transactionEnabled) && unacknowledgedChanges == 0
      {
        SyncShrinks(clientCopy, serverCopy, hotSpots[i..]);
        assert hotSpots[i..][0] == hotSpots[i] && hotSpots[i..][1..] == hotSpots[i + 1..];
        SyncAt(hotSpots[i]);
        i := i + 1;
      }
      assert hotSpots[i..] == [];
      NowhereHot(clientCopy, serverCopy);
      ignoreChanges := false;
      hotSpots := [];
    }

    // What comes from the server

    method GotDocumentChange(c: Documents.Change)
      requires Valid()
      modifies this`serverCopy, this`hotSpots
      ensures Valid() && serverCopy == Apply(c, old(serverCopy))
      ensures Both() == After(old(Both()), [ByServer(c)])
    {
      OneStep(Both(), ByServer(c));
      ChangeUnderHotSpot(clientCopy, serverCopy, hotSpots, c);
      serverCopy := Apply(c, serverCopy);
      AddHotSpot(c.path);
    }

    method GotDocumentStateChange(state: DocState, content: Content)
      requires Valid()
      modifies this`loaded, this`clientCopy, this`serverCopy, this`hotSpots
      ensures Valid() && pendingChanges == old(pendingChanges) && sent == old(sent) && links == old(links)
      ensures loaded == state.Loaded? && (loaded ==> hotSpots == [])
      ensures if loaded then clientCopy == serverCopy == content
        else clientCopy == old(clientCopy) && serverCopy == old(serverCopy)
    {
      if state.Loaded? {
        serverCopy := content;
        clientCopy := content;
        hotSpots := [];
      }
      loaded := state.Loaded?;
    }

    method DocumentChangeComplete()
      requires Valid()
      modifies this`clientCopy, this`pendingChanges, this`sent, this`transactionEnabled, this`hotSpots, this`ignoreChanges
      ensures Valid() && clientCopy == serverCopy && hotSpots == [] && View() == old(View())
      ensures pendingChanges == old(pendingChanges) && sent == old(sent) && links == old(links)
    {
      if unacknowledgedChanges == 0 {
        SyncHotSpots();
      }
    }

    /** Acknowledgements are only counted down, and there never is one to count. */
    method GotServerChangeOkay()
      requires Valid()
      ensures Valid()
    {
      assert !(unacknowledgedChanges > 0);
    }

    /** The changes of one packet, one by one. */
    method GotDocumentChanges(changes: seq<Documents.Change>)
      requires Valid()
      modifies this`serverCopy, this`hotSpots
      ensures Valid() && serverCopy == ApplyAll(changes, old(serverCopy))
    {
      var i := 0;
      while i < |changes|
        invariant i <= |changes| && Valid()
        invariant serverCopy == ApplyAll(changes[..i], old(serverCopy))
      {
        assert changes[..i + 1] == changes[..i] + [changes[i]];
        ApplyAllSnoc(changes[..i], changes[i], old(serverCopy));
        hide ApplyAll, Apply, AgreeElsewhere;
        GotDocumentChange(changes[i]);
        i := i + 1;
      }
      assert changes[..i] == changes;
    }

    /** A packet for this editor: its server copy goes on as replaying the packet says, what it
        has queued stays as it is, and once a packet with content was taken both copies agree. */
    method HandleDocumentServerEvent(p: Packet)
      requires Valid()
      modifies this`loaded, this`serverCopy, this`clientCopy, this`pendingChanges, this`sent, this`transactionEnabled
      modifies this`hotSpots, this`ignoreChanges
      ensures Valid() && View() == Receive(old(View()), p, p.docId)
      ensures pendingChanges == old(pendingChanges) && sent == old(sent)
      ensures p.body.Changes? || (p.body.State? && p.body.state.Loaded?) ==> clientCopy == serverCopy && hotSpots == []
    {
      hide ApplyAll, Apply, AgreeElsewhere;
      match p.body {
        case State(_, state, content) => GotDocumentStateChange(state, content);
        case Changes(_, changes) =>
          GotDocumentChanges(changes);
          DocumentChangeComplete();
        case Closed =>
        case ChangeOk => GotServerChangeOkay();
      }
    }
  }
}
