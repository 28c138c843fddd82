/** The pier's live view of campaign messages: two bounded, de-duplicated buffers per campaign. */
module BoardWatch {
  import opened Common

  const MAX_MESSAGES := 512

  datatype Note = Note(node: string, id: string, sentAt: int, message: string, eventType: string, payload: Bytes)

  /** Two envelopes of the same transport message: by message id when either has one, by the legacy
      fields when neither has. */
  predicate Same(a: Note, b: Note) {
    if a.id != "" || b.id != "" then a.id != "" && a.id == b.id
    else
      a.node == b.node && a.sentAt == b.sentAt && a.message == b.message && a.eventType == b.eventType
      && a.payload == b.payload
  }

  /** One campaign's buffers: recent history, and what the runner has not been given yet. */
  datatype Feed = Feed(notes: seq<Note>, pending: seq<Note>)

  const EMPTY := Feed([], [])

  /** The notes of every other node, in order. */
  function Without(s: seq<Note>, node: string): seq<Note> {
    if s == [] then []
    else
      var rest := Without(s[..|s| - 1], node);
      if s[|s| - 1].node != node then rest + [s[|s| - 1]] else rest
  }

  function From(s: seq<Note>, node: string): seq<Note> {
    if s == [] then []
    else
      var rest := From(s[..|s| - 1], node);
      if s[|s| - 1].node == node then rest + [s[|s| - 1]] else rest
  }

  function Excess(s: seq<Note>): nat {
    if |s| > MAX_MESSAGES then |s| - MAX_MESSAGES else 0
  }

  function Newest(s: seq<Note>): seq<Note> {
    s[Excess(s)..]
  }

  predicate Known(s: seq<Note>, n: Note) {
    exists i :: 0 <= i < |s| && Same(s[i], n)
  }

  function Clear(f: Feed, node: string): Feed {
    Feed(Without(f.notes, node), Without(f.pending, node))
  }

  /** A retained message without an id replaces everything its node said before. */
  function Replaces(n: Note, retained: bool): bool {
    retained && n.id == ""
  }

  function Cleared(f: Feed, n: Note, retained: bool): Feed {
    if Replaces(n, retained) then Clear(f, n.node) else f
  }

  predicate Accepts(f: Feed, n: Note, retained: bool) {
    !Known(Cleared(f, n, retained).notes, n)
  }

  function Receive(f: Feed, n: Note, retained: bool): Feed {
    var g := Cleared(f, n, retained);
    if Accepts(f, n, retained) then Feed(Newest(g.notes + [n]), Newest(g.pending + [n])) else g
  }

  // ----- the stable order drained messages come in -----

  /** Byte order on strings. */
  predicate StringLess(a: string, b: string) {
    b != [] && (a == [] || a[0] < b[0] || (a[0] == b[0] && StringLess(a[1..], b[1..])))
  }

  lemma {:induction false} StringOrder(a: string, b: string, c: string)
    ensures StringLess(a, b) || StringLess(b, a) || a == b
    ensures !(StringLess(a, b) && (StringLess(b, a) || a == b))
    ensures StringLess(a, b) && StringLess(b, c) ==> StringLess(a, c)
  {
    if a != [] && b != [] {
      if c != [] {
        StringOrder(a[1..], b[1..], c[1..]);
      } else {
        StringOrder(a[1..], b[1..], []);
      }
      assert a == [a[0]] + a[1..] && b == [b[0]] + b[1..];
    }
  }

  predicate Before(a: Note, b: Note) {
    if a.sentAt == b.sentAt then
      (if a.node == b.node then StringLess(a.id, b.id) else StringLess(a.node, b.node))
    else a.sentAt < b.sentAt
  }

  lemma BeforeOrder(a: Note, b: Note, c: Note)
    ensures !(Before(a, b) && Before(b, a))
    ensures !Before(b, a) && !Before(c, b) ==> !Before(c, a)
  {
    StringOrder(a.id, b.id, c.id);
    StringOrder(b.id, c.id, a.id);
    StringOrder(c.id, a.id, b.id);
    StringOrder(c.id, b.id, a.id);
    StringOrder(a.node, b.node, c.node);
    StringOrder(b.node, c.node, a.node);
    StringOrder(c.node, a.node, b.node);
    StringOrder(c.node, b.node, a.node);
  }

  predicate Sorted(s: seq<Note>) {
    forall i, j :: 0 <= i < j < |s| ==> !Before(s[j], s[i])
  }

  /** Puts `n` in front of everything it does not come after. */
  function Insert(n: Note, s: seq<Note>): seq<Note> {
    if s == [] || !Before(s[0], n) then [n] + s else [s[0]] + Insert(n, s[1..])
  }

  function StableSort(s: seq<Note>): seq<Note> {
    if s == [] then [] else Insert(s[0], StableSort(s[1..]))
  }

  /** Notes that rank with `k`, in order. */
  function Peers(s: seq<Note>, k: Note): seq<Note> {
    if s == [] then []
    else (if !Before(s[0], k) && !Before(k, s[0]) then [s[0]] else []) + Peers(s[1..], k)
  }

  lemma {:induction false} InsertElements(n: Note, s: seq<Note>)
    ensures multiset(Insert(n, s)) == multiset(s) + multiset{n}
  {
    if s != [] && Before(s[0], n) {
      InsertElements(n, s[1..]);
      assert s == [s[0]] + s[1..];
    }
  }

  lemma {:induction false} InsertAfter(n: Note, s: seq<Note>, x: Note)
    requires !Before(n, x) && forall j :: 0 <= j < |s| ==> !Before(s[j], x)
    ensures forall j :: 0 <= j < |Insert(n, s)| ==> !Before(Insert(n, s)[j], x)
  {
    if s != [] && Before(s[0], n) {
      InsertAfter(n, s[1..], x);
    }
  }

  lemma {:induction false} InsertSorts(n: Note, s: seq<Note>)
    requires Sorted(s)
    ensures Sorted(Insert(n, s))
  {
    if s == [] || !Before(s[0], n) {
      forall j | 0 <= j < |s|
        ensures !Before(s[j], n)
      {
        BeforeOrder(n, s[0], s[j]);
      }
    } else {
      InsertSorts(n, s[1..]);
      BeforeOrder(s[0], n, n);
      InsertAfter(n, s[1..], s[0]);
    }
  }

  lemma {:induction false} InsertPeers(n: Note, s: seq<Note>, k: Note)
    ensures Peers(Insert(n, s), k) == Peers([n] + s, k)
  {
    if s != [] && Before(s[0], n) {
      InsertPeers(n, s[1..], k);
      var t := Insert(n, s[1..]);
      assert ([s[0]] + t)[1..] == t;
      assert ([n] + s[1..])[1..] == s[1..];
      assert ([n] + s)[1..] == s;
      BeforeOrder(s[0], k, n);
      BeforeOrder(n, k, s[0]);
      BeforeOrder(k, s[0], n);
    }
  }

  /** `sort.SliceStable`: ordered, nothing lost or added, and ties keep their order. */
  lemma {:induction false} StableSortSorts(s: seq<Note>)
    ensures Sorted(StableSort(s)) && multiset(StableSort(s)) == multiset(s)
    ensures forall k :: Peers(StableSort(s), k) == Peers(s, k)
  {
    if s != [] {
      StableSortSorts(s[1..]);
      InsertSorts(s[0], StableSort(s[1..]));
      InsertElements(s[0], StableSort(s[1..]));
      assert s == [s[0]] + s[1..];
      forall k
        ensures Peers(StableSort(s), k) == Peers(s, k)
      {
        InsertPeers(s[0], StableSort(s[1..]), k);
        assert ([s[0]] + StableSort(s[1..]))[1..] == StableSort(s[1..]);
      }
    }
  }

  // ----- the object -----

  datatype Payload = NoPayload | Garbage | Envelope(note: Note)

  function At(m: map<string, seq<Note>>, c: string): seq<Note> {
    if c in m then m[c] else []
  }

  class Watch {
    var notes: map<string, seq<Note>>
    var pending: map<string, seq<Note>>

    constructor ()
      ensures forall c :: Of(c) == EMPTY
    {
      notes, pending := map[], map[];
    }

    function Of(c: string): Feed
      reads this
    {
      Feed(At(notes, c), At(pending, c))
    }

    /** `parts` is the topic after its prefix, split at slashes. */
    method OnBoardMessage(parts: seq<string>, payload: Payload, retained: bool)
      modifies this
      ensures var addressed := |parts| == 2 && parts[0] != "" && parts[1] != "";
              forall c :: Of(c) == if !addressed || c != parts[0] then old(Of(c))
                                   else match payload
                                        case NoPayload => Clear(old(Of(c)), parts[1])
                                        case Garbage => old(Of(c))
                                        case Envelope(n) => Receive(old(Of(c)), n.(node := parts[1]), retained)
    {
      if |parts| != 2 || parts[0] == "" || parts[1] == "" {
        return;
      }
      var c, node := parts[0], parts[1];
      match payload
      case NoPayload =>
        ForgetNode(c, node);
      case Garbage =>
      case Envelope(envelope) =>
        // the topic says who sent it, whatever the envelope claims
        var n := envelope.(node := node);
        if retained && n.id == "" {
          ForgetNode(c, node);
        }
        var known := KnownIn(At(notes, c), n);
        if !known {
          AppendBoth(c, n);
        }
    }

    static method KnownIn(s: seq<Note>, n: Note) returns (known: bool)
      ensures known == Known(s, n)
    {
      var i := 0;
      while i < |s|
        invariant 0 <= i <= |s|
        invariant forall k :: 0 <= k < i ==> !Same(s[k], n)
      {
        if Same(s[i], n) {
          return true;
        }
        i := i + 1;
      }
      return false;
    }

    /** Appends to both buffers and trims each to the newest messages. */
    method AppendBoth(c: string, n: Note)
      modifies this
      ensures Of(c) == Feed(Newest(old(Of(c)).notes + [n]), Newest(old(Of(c)).pending + [n]))
      ensures forall d :: d != c ==> Of(d) == old(Of(d))
    {
      var list := Appended(At(notes, c), n);
      notes := notes[c := list];
      list := Appended(At(pending, c), n);
      pending := pending[c := list];
    }

    static method Appended(s: seq<Note>, n: Note) returns (list: seq<Note>)
      ensures list == Newest(s + [n])
    {
      list := s + [n];
      if |list| > MAX_MESSAGES {
        list := list[|list| - MAX_MESSAGES..];
      }
    }

    /** Filters both buffers of a campaign. */
    method ForgetNode(c: string, node: string)
      modifies this
      ensures Of(c) == Clear(old(Of(c)), node)
      ensures forall d :: d != c ==> Of(d) == old(Of(d))
    {
      var kept := Filtered(At(notes, c), node);
      notes := notes[c := kept];
      kept := Filtered(At(pending, c), node);
      pending := pending[c := kept];
    }

    static method Filtered(s: seq<Note>, node: string) returns (kept: seq<Note>)
      ensures kept == Without(s, node)
    {
      kept := [];
      var i := 0;
      while i < |s|
        invariant 0 <= i <= |s|
        invariant kept == Without(s[..i], node)
      {
        assert s[..i + 1][..i] == s[..i];
        if s[i].node != node {
          kept := kept + [s[i]];
        }
        i := i + 1;
      }
      assert s[..i] == s;
    }

    method BoardSnapshot(c: string) returns (out: seq<Note>)
      ensures out == StableSort(Of(c).notes)
    {
      out := StableSort(At(notes, c));
    }

    /** Hands each waiting message to the next runner and forgets that it waited. */
    method DrainBoardSnapshot(c: string) returns (out: seq<Note>)
      modifies this`pending
      ensures out == StableSort(old(Of(c)).pending)
      ensures Of(c) == old(Of(c)).(pending := [])
      ensures forall d :: d != c ==> Of(d) == old(Of(d))
    {
      if |At(pending, c)| == 0 {
        return [];
      }
      out := StableSort(pending[c]);
      pending := pending[c := []];
    }
  }

  // ----- every reachable state of one campaign -----

  datatype Event = Message(n: Note, retained: bool) | ClearNode(node: string) | Drain

  /** A campaign's buffers with a record of where every accepted message went. */
  datatype Ledger = Ledger(
    feed: Feed,
    accepted: multiset<Note>,
    drained: multiset<Note>,
    evicted: multiset<Note>,
    cleared: multiset<Note>
  )

  const OPENING := Ledger(EMPTY, multiset{}, multiset{}, multiset{}, multiset{})

  function Happen(l: Ledger, e: Event): Ledger {
    match e
    case ClearNode(node) =>
      l.(feed := Clear(l.feed, node), cleared := l.cleared + multiset(From(l.feed.pending, node)))
    case Drain =>
      l.(feed := l.feed.(pending := []), drained := l.drained + multiset(StableSort(l.feed.pending)))
    case Message(n, retained) =>
      var g := Cleared(l.feed, n, retained);
      var l1 := l.(feed := Receive(l.feed, n, retained),
                   cleared := if Replaces(n, retained) then l.cleared + multiset(From(l.feed.pending, n.node))
                              else l.cleared);
      if Accepts(l.feed, n, retained) then
        var waiting := g.pending + [n];
        l1.(accepted := l.accepted + multiset{n}, evicted := l.evicted + multiset(waiting[..Excess(waiting)]))
      else l1
  }

  function HappenAll(l: Ledger, es: seq<Event>): Ledger
    decreases |es|
  {
    if es == [] then l else HappenAll(Happen(l, es[0]), es[1..])
  }

  predicate Distinct(s: seq<Note>) {
    forall i, j :: 0 <= i < j < |s| ==> !Same(s[i], s[j])
  }

  predicate IsSuffix(p: seq<Note>, s: seq<Note>) {
    |p| <= |s| && p == s[|s| - |p|..]
  }

  predicate Valid(f: Feed) {
    |f.notes| <= MAX_MESSAGES && |f.pending| <= MAX_MESSAGES && Distinct(f.notes) && IsSuffix(f.pending, f.notes)
  }

  predicate Balanced(l: Ledger) {
    l.accepted == l.drained + multiset(l.feed.pending) + l.evicted + l.cleared
  }

  lemma {:induction false} WithoutSplits(s: seq<Note>, node: string)
    ensures multiset(s) == multiset(Without(s, node)) + multiset(From(s, node))
    ensures |Without(s, node)| <= |s|
    ensures forall i :: 0 <= i < |Without(s, node)| ==> Without(s, node)[i] in s
  {
    if s != [] {
      WithoutSplits(s[..|s| - 1], node);
      assert s == s[..|s| - 1] + [s[|s| - 1]];
    }
  }

  lemma {:induction false} WithoutAppend(a: seq<Note>, b: seq<Note>, node: string)
    ensures Without(a + b, node) == Without(a, node) + Without(b, node)
  {
    if b == [] {
      assert a + b == a;
    } else {
      assert (a + b)[..|a + b| - 1] == a + b[..|b| - 1];
      WithoutAppend(a, b[..|b| - 1], node);
    }
  }

  lemma {:induction false} WithoutDistinct(s: seq<Note>, node: string)
    requires Distinct(s)
    ensures Distinct(Without(s, node))
  {
    if s != [] {
      var front := s[..|s| - 1];
      WithoutDistinct(front, node);
      WithoutSplits(front, node);
      var w := Without(front, node);
      forall i | 0 <= i < |w|
        ensures !Same(w[i], s[|s| - 1])
      {
        assert w[i] in front;
      }
    }
  }

  lemma ClearKeepsValid(f: Feed, node: string)
    requires Valid(f)
    ensures Valid(Clear(f, node))
  {
    WithoutSplits(f.notes, node);
    WithoutSplits(f.pending, node);
    WithoutDistinct(f.notes, node);
    var k := |f.notes| - |f.pending|;
    assert f.notes == f.notes[..k] + f.pending;
    WithoutAppend(f.notes[..k], f.pending, node);
  }

  lemma ReceiveKeepsValid(f: Feed, n: Note, retained: bool)
    requires Valid(f)
    ensures Valid(Receive(f, n, retained))
  {
    if Replaces(n, retained) {
      ClearKeepsValid(f, n.node);
    }
    var g := Cleared(f, n, retained);
    if !Known(g.notes, n) {
      assert Distinct(g.notes + [n]);
      var k := |g.notes| - |g.pending|;
      assert g.notes + [n] == g.notes[..k] + (g.pending + [n]);
    }
  }

  /** The bookkeeping of one delivery: `w + f` waited, `f` was cleared, then `n` came in and `ev`
      fell off the end. */
  lemma BooksAfterDelivery(a: multiset<Note>, d: multiset<Note>, p: multiset<Note>, e: multiset<Note>,
                           c: multiset<Note>, w: multiset<Note>, f: multiset<Note>, one: multiset<Note>,
                           ev: multiset<Note>, p1: multiset<Note>)
    requires a == d + p + e + c && p == w + f && w + one == ev + p1
    ensures a + one == d + p1 + (e + ev) + (c + f)
  {
    forall x
      ensures (a + one)[x] == (d + p1 + (e + ev) + (c + f))[x]
    {
      assert a[x] == d[x] + p[x] + e[x] + c[x];
      assert p[x] == w[x] + f[x];
      assert (w + one)[x] == (ev + p1)[x];
    }
  }

  lemma BooksAfterClear(a: multiset<Note>, d: multiset<Note>, p: multiset<Note>, e: multiset<Note>, c: multiset<Note>,
                        w: multiset<Note>, f: multiset<Note>)
    requires a == d + p + e + c && p == w + f
    ensures a == d + w + e + (c + f)
  {
    forall x
      ensures a[x] == (d + w + e + (c + f))[x]
    {
      assert p[x] == w[x] + f[x];
    }
  }

  lemma TrimSplits(pending: seq<Note>, n: Note)
    ensures var waiting := pending + [n];
            multiset(pending) + multiset{n} == multiset(waiting[..Excess(waiting)]) + multiset(Newest(waiting))
  {
    var waiting := pending + [n];
    assert waiting == waiting[..Excess(waiting)] + Newest(waiting);
    assert multiset(waiting) == multiset(pending) + multiset{n};
  }

  lemma DeliveryBalances(l: Ledger, n: Note, retained: bool)
    requires Balanced(l)
    ensures Balanced(Happen(l, Message(n, retained)))
  {
    var g := Cleared(l.feed, n, retained);
    var p, w := multiset(l.feed.pending), multiset(g.pending);
    WithoutSplits(l.feed.pending, n.node);
    var f := if Replaces(n, retained) then multiset(From(l.feed.pending, n.node)) else multiset{};
    assert p == w + f;
    var l1 := Happen(l, Message(n, retained));
    assert l1.cleared == l.cleared + f;
    if Known(g.notes, n) {
      BooksAfterClear(l.accepted, l.drained, p, l.evicted, l.cleared, w, f);
    } else {
      var waiting := g.pending + [n];
      var ev := multiset(waiting[..Excess(waiting)]);
      TrimSplits(g.pending, n);
      BooksAfterDelivery(l.accepted, l.drained, p, l.evicted, l.cleared, w, f, multiset{n}, ev,
        multiset(Newest(waiting)));
    }
  }

  lemma HappenKeeps(l: Ledger, e: Event)
    requires Valid(l.feed) && Balanced(l)
    ensures Valid(Happen(l, e).feed) && Balanced(Happen(l, e))
  {
    match e
    case ClearNode(node) =>
      ClearKeepsValid(l.feed, node);
      WithoutSplits(l.feed.pending, node);
      BooksAfterClear(l.accepted, l.drained, multiset(l.feed.pending), l.evicted, l.cleared,
                      multiset(Without(l.feed.pending, node)), multiset(From(l.feed.pending, node)));
    case Drain =>
      StableSortSorts(l.feed.pending);
      assert Happen(l, Drain).feed.pending == [];
    case Message(n, retained) =>
      ReceiveKeepsValid(l.feed, n, retained);
      DeliveryBalances(l, n, retained);
  }

  /** In every reachable state the buffers are bounded, hold no message twice, what waits is the tail
      of the history, and every accepted message is accounted for exactly once: drained, waiting,
      evicted or cleared. */
  lemma {:induction false} EveryMessageAccountedFor(l: Ledger, es: seq<Event>)
    requires Valid(l.feed) && Balanced(l)
    ensures Valid(HappenAll(l, es).feed) && Balanced(HappenAll(l, es))
    decreases |es|
  {
    if es != [] {
      HappenKeeps(l, es[0]);
      EveryMessageAccountedFor(Happen(l, es[0]), es[1..]);
    }
  }

  lemma {:induction false} HappenAppend(l: Ledger, a: seq<Event>, b: seq<Event>)
    ensures HappenAll(l, a + b) == HappenAll(HappenAll(l, a), b)
    decreases |a|
  {
    if a == [] {
      assert a + b == b;
    } else {
      assert (a + b)[1..] == a[1..] + b;
      HappenAppend(Happen(l, a[0]), a[1..], b);
    }
  }

  lemma HappenLast(l: Ledger, es: seq<Event>)
    requires es != []
    ensures HappenAll(l, es) == Happen(HappenAll(l, es[..|es| - 1]), es[|es| - 1])
  {
    var front, last := es[..|es| - 1], [es[|es| - 1]];
    assert es == front + last && last[1..] == [];
    HappenAppend(l, front, last);
    assert HappenAll(Happen(HappenAll(l, front), last[0]), []) == Happen(HappenAll(l, front), last[0]);
  }

  // ----- when a message counts as new again -----

  lemma {:induction false} WithoutHasNone(s: seq<Note>, node: string)
    ensures forall i :: 0 <= i < |Without(s, node)| ==> Without(s, node)[i].node != node
  {
    if s != [] {
      WithoutHasNone(s[..|s| - 1], node);
    }
  }

  /** A retained message without an id is always taken for new, any other when the history does not hold it. */
  lemma AcceptedExactlyWhen(f: Feed, n: Note, retained: bool)
    ensures Accepts(f, n, retained) <==> Replaces(n, retained) || !Known(f.notes, n)
  {
    if Replaces(n, retained) {
      WithoutHasNone(f.notes, n.node);
    }
  }

  /** The event takes every note of the node out of the history. */
  predicate Clears(e: Event, node: string) {
    match e
    case ClearNode(cleared) => cleared == node
    case Message(n, retained) => Replaces(n, retained) && n.node == node
    case Drain => false
  }

  predicate AcceptedAt(l: Ledger, es: seq<Event>, i: nat)
    requires i < |es|
  {
    es[i].Message? && Accepts(HappenAll(l, es[..i]).feed, es[i].n, es[i].retained)
  }

  function ClearedBy(e: Event, s: seq<Note>): seq<Note> {
    match e
    case ClearNode(node) => Without(s, node)
    case Message(n, retained) => if Replaces(n, retained) then Without(s, n.node) else s
    case Drain => s
  }

  /** The messages accepted during the run whose node was not cleared since. */
  function Newer(l: Ledger, es: seq<Event>): seq<Note> {
    if es == [] then []
    else
      var last := |es| - 1;
      ClearedBy(es[last], Newer(l, es[..last])) + if AcceptedAt(l, es, last) then [es[last].n] else []
  }

  /** At event `i` a message held since before the run is lost: its node is cleared, or as many newer
      messages stand behind it as the history holds. */
  predicate DroppedAt(l: Ledger, es: seq<Event>, n: Note, i: nat)
    requires i < |es|
  {
    Clears(es[i], n.node) || |Newer(l, es[..i + 1])| >= MAX_MESSAGES
  }

  ghost predicate Dropped(l: Ledger, es: seq<Event>, n: Note) {
    exists i :: 0 <= i < |es| && DroppedAt(l, es, n, i)
  }

  /** No other envelope of the same message was accepted during the run. */
  ghost predicate NoneAccepted(l: Ledger, es: seq<Event>, n: Note) {
    forall i :: 0 <= i < |es| && AcceptedAt(l, es, i) ==> !Same(n, es[i].n)
  }

  predicate Latest(l: Ledger, n: Note) {
    Valid(l.feed) && l.feed.notes != [] && l.feed.notes[|l.feed.notes| - 1] == n
  }

  lemma FrontOfRun(l: Ledger, es: seq<Event>, n: Note)
    requires es != []
    ensures Dropped(l, es, n) <==> Dropped(l, es[..|es| - 1], n) || DroppedAt(l, es, n, |es| - 1)
    ensures NoneAccepted(l, es, n) ==> NoneAccepted(l, es[..|es| - 1], n)
  {
    var last := |es| - 1;
    var front := es[..last];
    forall i | 0 <= i < last
      ensures DroppedAt(l, es, n, i) == DroppedAt(l, front, n, i)
      ensures AcceptedAt(l, es, i) == AcceptedAt(l, front, i)
    {
      assert front[..i + 1] == es[..i + 1] && front[..i] == es[..i];
    }
    if Dropped(l, front, n) {
      var i :| 0 <= i < |front| && DroppedAt(l, front, n, i);
      assert DroppedAt(l, es, n, i);
    }
    if Dropped(l, es, n) {
      var i :| 0 <= i < |es| && DroppedAt(l, es, n, i);
      assert i < last ==> DroppedAt(l, front, n, i);
    }
  }

  lemma {:induction false} NewerShort(l: Ledger, es: seq<Event>, n: Note)
    requires !Dropped(l, es, n)
    ensures |Newer(l, es)| < MAX_MESSAGES
  {
    if es != [] {
      assert es[..|es| - 1 + 1] == es;
      assert !DroppedAt(l, es, n, |es| - 1);
    }
  }

  lemma WithoutKeeps(p: seq<Note>, n: Note, q: seq<Note>, node: string)
    requires n.node != node
    ensures Without(p + [n] + q, node) == Without(p, node) + [n] + Without(q, node)
  {
    WithoutAppend(p + [n], q, node);
    WithoutAppend(p, [n], node);
    assert [n][..0] == [];
  }

  /** The history around the message after an event that does not clear its node. */
  lemma AroundAfterClear(f: Feed, e: Event, p: seq<Note>, n: Note, q: seq<Note>) returns (p': seq<Note>)
    requires f.notes == p + [n] + q && !Clears(e, n.node)
    ensures ClearedBy(e, f.notes) == p' + [n] + ClearedBy(e, q)
    ensures |p'| <= |p|
  {
    p' := ClearedBy(e, p);
    match e
    case ClearNode(node) =>
      WithoutKeeps(p, n, q, node);
      WithoutSplits(p, node);
    case Message(m, retained) =>
      if Replaces(m, retained) {
        WithoutKeeps(p, n, q, m.node);
        WithoutSplits(p, m.node);
      }
    case Drain =>
  }

  lemma NotesAfter(l: Ledger, es: seq<Event>)
    requires es != []
    ensures var last := |es| - 1;
            var before := HappenAll(l, es[..last]).feed.notes;
            HappenAll(l, es).feed.notes
            == if AcceptedAt(l, es, last) then Newest(ClearedBy(es[last], before) + [es[last].n])
               else ClearedBy(es[last], before)
  {
    HappenLast(l, es);
  }

  lemma {:induction false} RunKeepsValid(l: Ledger, es: seq<Event>)
    requires Valid(l.feed)
    ensures Valid(HappenAll(l, es).feed)
    decreases |es|
  {
    if es != [] {
      match es[0] {
        case ClearNode(node) => ClearKeepsValid(l.feed, node);
        case Drain =>
        case Message(n, retained) => ReceiveKeepsValid(l.feed, n, retained);
      }
      RunKeepsValid(Happen(l, es[0]), es[1..]);
    }
  }

  /** Until it is dropped, the message stands in the history with all that is newer right behind it. */
  lemma {:induction false} Held(l: Ledger, es: seq<Event>, n: Note) returns (p: seq<Note>)
    requires Latest(l, n) && !Dropped(l, es, n)
    ensures HappenAll(l, es).feed.notes == p + [n] + Newer(l, es)
    decreases |es|
  {
    if es == [] {
      p := l.feed.notes[..|l.feed.notes| - 1];
    } else {
      var last := |es| - 1;
      FrontOfRun(l, es, n);
      var before := Held(l, es[..last], n);
      p := AroundAfterClear(HappenAll(l, es[..last]).feed, es[last], before, n, Newer(l, es[..last]));
      NotesAfter(l, es);
      NewerShort(l, es, n);
      RunKeepsValid(l, es[..last]);
      if AcceptedAt(l, es, last) {
        p := TrimmedAround(p, n, ClearedBy(es[last], Newer(l, es[..last])), es[last].n);
      }
    }
  }

  lemma TrimmedAround(p: seq<Note>, n: Note, q: seq<Note>, m: Note) returns (p': seq<Note>)
    requires |q| + 1 < MAX_MESSAGES
    ensures Newest(p + [n] + q + [m]) == p' + [n] + (q + [m])
  {
    var list := p + [n] + q + [m];
    assert Excess(list) <= |p|;
    p' := p[Excess(list)..];
    assert list == p[..Excess(list)] + (p' + [n] + (q + [m]));
  }

  lemma SameOrder(a: Note, b: Note, c: Note)
    ensures Same(a, b) <==> Same(b, a)
    ensures Same(a, b) ==> (Same(b, c) <==> Same(a, c))
  {
  }

  lemma ClearedByKeepsDistinct(e: Event, s: seq<Note>)
    requires Distinct(s)
    ensures Distinct(ClearedBy(e, s)) && |ClearedBy(e, s)| <= |s|
    ensures forall i :: 0 <= i < |ClearedBy(e, s)| ==> ClearedBy(e, s)[i] in s
  {
    match e
    case ClearNode(node) =>
      WithoutDistinct(s, node);
      WithoutSplits(s, node);
    case Message(n, retained) =>
      WithoutDistinct(s, n.node);
      WithoutSplits(s, n.node);
    case Drain =>
  }

  /** An event that accepts no envelope of the message never brings it into the history. */
  lemma StaysUnknown(l: Ledger, es: seq<Event>, n: Note)
    requires es != [] && Valid(HappenAll(l, es[..|es| - 1]).feed)
    requires AcceptedAt(l, es, |es| - 1) ==> !Same(n, es[|es| - 1].n)
    requires !Known(ClearedBy(es[|es| - 1], HappenAll(l, es[..|es| - 1]).feed.notes), n)
    ensures !Known(HappenAll(l, es).feed.notes, n)
  {
    var last := |es| - 1;
    NotesAfter(l, es);
    if AcceptedAt(l, es, last) {
      SameOrder(n, es[last].n, n);
    }
  }

  lemma LostByClearing(s: seq<Note>, e: Event, p: seq<Note>, n: Note, q: seq<Note>)
    requires s == p + [n] + q && Distinct(s) && Clears(e, n.node)
    ensures !Known(ClearedBy(e, s), n)
  {
    WithoutSplits(s, n.node);
    WithoutHasNone(s, n.node);
    var w := Without(s, n.node);
    forall i | 0 <= i < |w|
      ensures !Same(w[i], n)
    {
      assert w[i] in s;
      var k :| 0 <= k < |s| && s[k] == w[i];
      assert s[|p|] == n;
      SameOrder(s[k], n, n);
    }
  }

  lemma LostByTrimming(p: seq<Note>, n: Note, q: seq<Note>, m: Note)
    requires Distinct(p + [n] + q) && |q| + 1 == MAX_MESSAGES && !Same(n, m)
    ensures !Known(Newest(p + [n] + q + [m]), n)
  {
    var list := p + [n] + q + [m];
    assert Newest(list) == q + [m];
    SameOrder(n, m, n);
    forall i | 0 <= i < |q|
      ensures !Same(q[i], n)
    {
      assert (p + [n] + q)[|p|] == n && (p + [n] + q)[|p| + 1 + i] == q[i];
      SameOrder(q[i], n, n);
    }
  }

  lemma LostAtLast(l: Ledger, es: seq<Event>, n: Note)
    requires Latest(l, n) && es != [] && !Dropped(l, es[..|es| - 1], n)
    requires DroppedAt(l, es, n, |es| - 1) && NoneAccepted(l, es, n)
    ensures !Known(HappenAll(l, es).feed.notes, n)
  {
    var last := |es| - 1;
    assert es[..last + 1] == es;
    RunKeepsValid(l, es[..last]);
    var before := HappenAll(l, es[..last]).feed.notes;
    var newer := Newer(l, es[..last]);
    var p := Held(l, es[..last], n);
    NewerShort(l, es[..last], n);
    if Clears(es[last], n.node) {
      LostByClearing(before, es[last], p, n, newer);
      StaysUnknown(l, es, n);
    } else {
      NewerDistinct(before, p, n, newer, es[last]);
      var p' := AroundAfterClear(HappenAll(l, es[..last]).feed, es[last], p, n, newer);
      ClearedByKeepsDistinct(es[last], before);
      LostByTrimming(p', n, ClearedBy(es[last], newer), es[last].n);
      NotesAfter(l, es);
    }
  }

  lemma NewerDistinct(s: seq<Note>, p: seq<Note>, n: Note, q: seq<Note>, e: Event)
    requires s == p + [n] + q && Distinct(s)
    ensures |ClearedBy(e, q)| <= |q|
  {
    assert forall i :: 0 <= i < |q| ==> q[i] == s[|p| + 1 + i];
    ClearedByKeepsDistinct(e, q);
  }

  lemma {:induction false} LostWhenDropped(l: Ledger, es: seq<Event>, n: Note)
    requires Latest(l, n) && Dropped(l, es, n) && NoneAccepted(l, es, n)
    ensures !Known(HappenAll(l, es).feed.notes, n)
    decreases |es|
  {
    var last := |es| - 1;
    FrontOfRun(l, es, n);
    if Dropped(l, es[..last], n) {
      LostWhenDropped(l, es[..last], n);
      RunKeepsValid(l, es[..last]);
      var before := HappenAll(l, es[..last]).feed.notes;
      ClearedByKeepsDistinct(es[last], before);
      KnownOnlyIfIn(before, ClearedBy(es[last], before), n);
      StaysUnknown(l, es, n);
    } else {
      LostAtLast(l, es, n);
    }
  }

  lemma KnownOnlyIfIn(s: seq<Note>, t: seq<Note>, n: Note)
    requires !Known(s, n) && forall i :: 0 <= i < |t| ==> t[i] in s
    ensures !Known(t, n)
  {
    forall i | 0 <= i < |t|
      ensures !Same(t[i], n)
    {
      var k :| 0 <= k < |s| && s[k] == t[i];
    }
  }

  /** Once a message has been accepted, and until another envelope of it is, a further envelope is taken for new
      exactly when it is a retained one without an id, or since then the node was cleared (by an empty payload
      or by a retained message without an id), or 512 newer messages came to stand in the history. */
  lemma AcceptedAgainExactlyWhen(l: Ledger, n: Note, r: bool, es: seq<Event>, m: Note, retained: bool)
    requires Valid(l.feed) && Accepts(l.feed, n, r) && Same(n, m)
    requires NoneAccepted(Happen(l, Message(n, r)), es, n)
    ensures var l1 := Happen(l, Message(n, r));
            Accepts(HappenAll(l1, es).feed, m, retained) <==> Replaces(m, retained) || Dropped(l1, es, n)
  {
    var l1 := Happen(l, Message(n, r));
    ReceiveKeepsValid(l.feed, n, r);
    var f := HappenAll(l1, es).feed;
    AcceptedExactlyWhen(f, m, retained);
    forall i | 0 <= i < |f.notes|
      ensures Same(f.notes[i], n) == Same(f.notes[i], m)
    {
      SameOrder(n, m, f.notes[i]);
      SameOrder(f.notes[i], n, m);
      SameOrder(f.notes[i], m, m);
    }
    if Dropped(l1, es, n) {
      LostWhenDropped(l1, es, n);
    } else {
      var p := Held(l1, es, n);
      assert f.notes[|p|] == n;
      assert Known(f.notes, n);
    }
  }

  // ----- how often a runner is given a message -----

  /** The state before event `i`. */
  function Reached(es: seq<Event>, i: nat): Ledger
    requires i <= |es|
  {
    HappenAll(OPENING, es[..i])
  }

  lemma ReachedNext(es: seq<Event>, i: nat)
    requires i < |es|
    ensures Reached(es, i + 1) == Happen(Reached(es, i), es[i])
  {
    assert es[..i + 1][..i] == es[..i];
    HappenLast(OPENING, es[..i + 1]);
  }

  lemma ReachedLater(es: seq<Event>, i: nat, j: nat)
    requires i <= j <= |es|
    ensures HappenAll(Reached(es, i), es[i..j]) == Reached(es, j)
  {
    assert es[..j] == es[..i] + es[i..j];
    HappenAppend(OPENING, es[..i], es[i..j]);
  }

  /** Between its acceptance at `i` and the envelope at `j`, something made the message count as new again. */
  ghost predicate RenewedAt(es: seq<Event>, i: nat, j: nat)
    requires i < j < |es|
  {
    && AcceptedAt(OPENING, es, i) && es[j].Message? && Same(es[i].n, es[j].n)
    && (Replaces(es[j].n, es[j].retained) || Dropped(Reached(es, i + 1), es[i + 1..j], es[i].n))
  }

  ghost predicate Renewed(es: seq<Event>, k: Note) {
    exists i, j :: 0 <= i < j < |es| && RenewedAt(es, i, j) && Same(k, es[i].n)
  }

  ghost predicate AcceptedTwice(es: seq<Event>, k: Note) {
    exists i, j :: 0 <= i < j < |es| && AcceptedAt(OPENING, es, i) && AcceptedAt(OPENING, es, j)
                   && Same(k, es[i].n) && Same(k, es[j].n)
  }

  lemma AcceptedInside(es: seq<Event>, k: nat, j: nat, x: nat)
    requires k <= j <= |es| && x < j - k
    ensures es[k..j][x] == es[k + x]
    ensures AcceptedAt(Reached(es, k), es[k..j], x) == AcceptedAt(OPENING, es, k + x)
  {
    assert es[k..j][..x] == es[k..k + x];
    assert HappenAll(Reached(es, k), es[k..j][..x]).feed == HappenAll(OPENING, es[..k + x]).feed by {
      ReachedLater(es, k, k + x);
    }
  }

  lemma AcceptedThenAgain(es: seq<Event>, i: nat, j: nat)
    requires i < j < |es| && AcceptedAt(OPENING, es, i) && es[j].Message? && Same(es[i].n, es[j].n)
    requires NoneAccepted(Reached(es, i + 1), es[i + 1..j], es[i].n)
    ensures AcceptedAt(OPENING, es, j) <==> RenewedAt(es, i, j)
  {
    RunKeepsValid(OPENING, es[..i]);
    ReachedNext(es, i);
    ReachedLater(es, i + 1, j);
    AcceptedAgainExactlyWhen(Reached(es, i), es[i].n, es[i].retained, es[i + 1..j], es[j].n, es[j].retained);
  }

  /** The first envelope of the message accepted after the one at `i`. */
  lemma {:induction false} NextAccepted(es: seq<Event>, i: nat, j: nat) returns (next: nat)
    requires i < j < |es| && AcceptedAt(OPENING, es, i) && AcceptedAt(OPENING, es, j) && Same(es[i].n, es[j].n)
    ensures i < next <= j && AcceptedAt(OPENING, es, next) && Same(es[i].n, es[next].n)
    ensures NoneAccepted(Reached(es, i + 1), es[i + 1..next], es[i].n)
    decreases j
  {
    var l1, inner := Reached(es, i + 1), es[i + 1..j];
    if NoneAccepted(l1, inner, es[i].n) {
      next := j;
    } else {
      var x :| 0 <= x < |inner| && AcceptedAt(l1, inner, x) && Same(es[i].n, inner[x].n);
      AcceptedInside(es, i + 1, j, x);
      next := NextAccepted(es, i, i + 1 + x);
    }
  }

  lemma AcceptedTwiceIsRenewed(es: seq<Event>, k: Note)
    requires AcceptedTwice(es, k)
    ensures Renewed(es, k)
  {
    var i, j :| 0 <= i < j < |es| && AcceptedAt(OPENING, es, i) && AcceptedAt(OPENING, es, j)
                && Same(k, es[i].n) && Same(k, es[j].n);
    SameOrder(k, es[i].n, es[j].n);
    var next := NextAccepted(es, i, j);
    AcceptedThenAgain(es, i, next);
  }

  lemma RenewedIsAcceptedTwice(es: seq<Event>, k: Note)
    requires Renewed(es, k)
    ensures AcceptedTwice(es, k)
  {
    var i, j :| 0 <= i < j < |es| && RenewedAt(es, i, j) && Same(k, es[i].n);
    SameOrder(es[i].n, k, es[j].n);
    var l1, inner := Reached(es, i + 1), es[i + 1..j];
    if NoneAccepted(l1, inner, es[i].n) {
      AcceptedThenAgain(es, i, j);
    } else {
      var x :| 0 <= x < |inner| && AcceptedAt(l1, inner, x) && Same(es[i].n, inner[x].n);
      AcceptedInside(es, i + 1, j, x);
      SameOrder(es[i].n, k, inner[x].n);
    }
  }

  /** A message is accepted more than once exactly when something made it count as new again. */
  lemma AcceptedTwiceExactlyWhen(es: seq<Event>, k: Note)
    ensures AcceptedTwice(es, k) <==> Renewed(es, k)
  {
    if AcceptedTwice(es, k) {
      AcceptedTwiceIsRenewed(es, k);
    }
    if Renewed(es, k) {
      RenewedIsAcceptedTwice(es, k);
    }
  }

  ghost predicate AtMostOne(ms: multiset<Note>, k: Note) {
    forall x, y :: x in ms && y in ms && Same(k, x) && Same(k, y) ==> x == y && ms[x] == 1
  }

  /** What was accepted came in some event. */
  lemma {:induction false} AcceptedSomewhere(es: seq<Event>, x: Note) returns (i: nat)
    requires x in HappenAll(OPENING, es).accepted
    ensures i < |es| && AcceptedAt(OPENING, es, i) && es[i].n == x
    decreases |es|
  {
    var last := |es| - 1;
    HappenLast(OPENING, es);
    if AcceptedAt(OPENING, es, last) && es[last].n == x {
      i := last;
    } else {
      i := AcceptedSomewhere(es[..last], x);
      assert es[..last][..i] == es[..i];
    }
  }

  lemma {:induction false} AcceptedOnce(es: seq<Event>, k: Note)
    requires !AcceptedTwice(es, k)
    ensures AtMostOne(HappenAll(OPENING, es).accepted, k)
    decreases |es|
  {
    if es != [] {
      var last := |es| - 1;
      var front := es[..last];
      forall i | 0 <= i < last
        ensures AcceptedAt(OPENING, front, i) == AcceptedAt(OPENING, es, i)
      {
        assert front[..i] == es[..i];
      }
      AcceptedOnce(front, k);
      HappenLast(OPENING, es);
      if AcceptedAt(OPENING, es, last) && Same(k, es[last].n) {
        forall x | x in HappenAll(OPENING, front).accepted
          ensures !Same(k, x)
        {
          var i := AcceptedSomewhere(front, x);
        }
      }
    }
  }

  /** So unless something made it count as new again, a message is handed to a runner at most once, however often
      and in however many envelopes it is delivered. */
  lemma DrainedAtMostOnce(es: seq<Event>, k: Note)
    requires !Renewed(es, k)
    ensures AtMostOne(HappenAll(OPENING, es).drained, k)
  {
    AcceptedTwiceExactlyWhen(es, k);
    AcceptedOnce(es, k);
    EveryMessageAccountedFor(OPENING, es);
    var l := HappenAll(OPENING, es);
    forall x
      ensures l.drained[x] <= l.accepted[x]
    {
      assert (l.drained + multiset(l.feed.pending) + l.evicted + l.cleared)[x] >= l.drained[x];
    }
  }

  /** An accepted message is handed out by the next drain. */
  lemma AcceptedIsDrained(l: Ledger, n: Note, retained: bool)
    requires l.feed.pending == [] && Accepts(l.feed, n, retained)
    ensures HappenAll(l, [Message(n, retained), Drain]) == Happen(Happen(l, Message(n, retained)), Drain)
    ensures var l2 := HappenAll(l, [Message(n, retained), Drain]);
            && l2.drained == l.drained + multiset{n} && l2.feed.pending == []
            && l2.feed.notes == Newest(Cleared(l.feed, n, retained).notes + [n])
  {
    var es := [Message(n, retained), Drain];
    assert es[1..] == [Drain] && es[1..][1..] == [];
    var l1 := Happen(l, es[0]);
    assert HappenAll(Happen(l1, Drain), []) == Happen(l1, Drain);
    assert HappenAll(l1, [Drain]) == HappenAll(Happen(l1, Drain), [Drain][1..]);
    assert Cleared(l.feed, n, retained).pending == [];
    assert l1.feed.pending == [n];
    assert StableSort([n]) == [n] by {
      assert [n][1..] == [];
    }
  }

  /** Delivered and handed out, with the buffers left holding the message as history. */
  lemma DrainedOnce(l: Ledger, n: Note, retained: bool)
    requires l.feed.pending == [] && Accepts(l.feed, n, retained) && Cleared(l.feed, n, retained).notes == []
    ensures var l2 := HappenAll(l, [Message(n, retained), Drain]);
            l2.drained == l.drained + multiset{n} && l2.feed == Feed([n], [])
  {
    AcceptedIsDrained(l, n, retained);
    assert Newest([] + [n]) == [n];
  }

  /** The runner is handed a message again that is delivered again after its node was cleared. */
  lemma ClearedReplayIsDrainedTwice(n: Note)
    ensures var once := [Message(n, false), Drain];
            HappenAll(OPENING, once + ([ClearNode(n.node)] + once)).drained[n] == 2
  {
    var once := [Message(n, false), Drain];
    DrainedOnce(OPENING, n, false);
    var l1 := HappenAll(OPENING, once);
    var l2 := Happen(l1, ClearNode(n.node));
    assert Without([n], n.node) == [] by {
      assert [n][..0] == [];
    }
    DrainedOnce(l2, n, false);
    assert ([ClearNode(n.node)] + once)[1..] == once;
    HappenAppend(OPENING, once, [ClearNode(n.node)] + once);
  }

  /** So it is when the broker replays a retained message without an id. */
  lemma RetainedReplayIsDrainedTwice(n: Note)
    requires n.id == ""
    ensures var once := [Message(n, true), Drain];
            HappenAll(OPENING, once + once).drained[n] == 2
  {
    var once := [Message(n, true), Drain];
    DrainedOnce(OPENING, n, true);
    var l1 := HappenAll(OPENING, once);
    assert Without([n], n.node) == [] by {
      assert [n][..0] == [];
    }
    DrainedOnce(l1, n, true);
    HappenAppend(OPENING, once, once);
  }
}
