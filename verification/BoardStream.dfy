/** The researcher's poll loop over a campaign board: ordered pages after a two-part cursor. */
module BoardStream {
  import opened Common

  const PAGE_LIMIT := 500

  /** `created` and `id` are the database's order of notes; `own` marks the researcher's own. */
  datatype Note = Note(created: int, id: int, own: bool, message: string)

  predicate Less(a: Note, b: Note) {
    a.created < b.created || (a.created == b.created && a.id < b.id)
  }

  predicate SortedLog(log: seq<Note>) {
    forall i, j :: 0 <= i < j < |log| ==> Less(log[i], log[j])
  }

  // ----- server -----

  /** The WHERE clause, by which query parameters are present. */
  predicate Selected(n: Note, since: Option<int>, afterId: Option<int>) {
    match (since, afterId)
    case (Some(c), Some(i)) => n.created > c || (n.created == c && n.id > i)
    case (Some(c), None) => n.created > c
    case (None, Some(i)) => n.id > i
    case (None, None) => true
  }

  /** Selected notes in order, at most `limit` of them. */
  function Page(log: seq<Note>, since: Option<int>, afterId: Option<int>, limit: nat): seq<Note> {
    if log == [] || limit == 0 then []
    else if Selected(log[0], since, afterId) then [log[0]] + Page(log[1..], since, afterId, limit - 1)
    else Page(log[1..], since, afterId, limit)
  }

  lemma PageStep(log: seq<Note>, i: nat, since: Option<int>, afterId: Option<int>, limit: nat)
    requires i < |log| && limit > 0
    ensures Page(log[i..], since, afterId, limit)
         == if Selected(log[i], since, afterId) then [log[i]] + Page(log[i + 1..], since, afterId, limit - 1)
            else Page(log[i + 1..], since, afterId, limit)
  {
    assert log[i..][0] == log[i] && log[i..][1..] == log[i + 1..];
  }

  /** One row of the scan, with `notes` collected before it. */
  lemma ScanRow(log: seq<Note>, i: nat, since: Option<int>, afterId: Option<int>, limit: nat, notes: seq<Note>)
    requires i < |log| && limit > 0
    ensures notes + Page(log[i..], since, afterId, limit)
         == if Selected(log[i], since, afterId) then notes + [log[i]] + Page(log[i + 1..], since, afterId, limit - 1)
            else notes + Page(log[i + 1..], since, afterId, limit)
  {
    PageStep(log, i, since, afterId, limit);
    if Selected(log[i], since, afterId) {
      var rest := Page(log[i + 1..], since, afterId, limit - 1);
      assert notes + ([log[i]] + rest) == notes + [log[i]] + rest;
    }
  }

  /** The handler: scan the rows in order, append each selected one to the answer. */
  method GetBoardNotes(log: seq<Note>, since: Option<int>, afterId: Option<int>) returns (notes: seq<Note>)
    ensures notes == Page(log, since, afterId, PAGE_LIMIT)
  {
    notes := [];
    var i := 0;
    assert log[0..] == log;
    while i < |log| && |notes| < PAGE_LIMIT
      invariant 0 <= i <= |log| && |notes| <= PAGE_LIMIT
      invariant Page(log, since, afterId, PAGE_LIMIT) == notes + Page(log[i..], since, afterId, PAGE_LIMIT - |notes|)
    {
      ScanRow(log, i, since, afterId, PAGE_LIMIT - |notes|, notes);
      if Selected(log[i], since, afterId) {
        notes := notes + [log[i]];
      }
      i := i + 1;
    }
    assert |notes| < PAGE_LIMIT ==> log[i..] == [];
  }

  // ----- client -----

  /** The notes the callback sees: all, or all but the researcher's own. */
  function Shown(notes: seq<Note>, includeOwn: bool): seq<Note> {
    if notes == [] then []
    else
      var front := Shown(notes[..|notes| - 1], includeOwn);
      if !includeOwn && notes[|notes| - 1].own then front else front + [notes[|notes| - 1]]
  }

  class CampaignBoard {
    var cursor: Option<int>
    var lastId: Option<int>
    var consumed: seq<Note>
    var shown: seq<Note>

    constructor ()
      ensures cursor == None && lastId == None && consumed == [] && shown == []
    {
      cursor, lastId, consumed, shown := None, None, [], [];
    }

    /** One turn of `run` after a poll; a failed poll counts as an empty page.  A callback that fails
        is logged and the loop goes on, so it leaves no trace here. */
    method Consume(notes: seq<Note>, includeOwn: bool)
      modifies this
      ensures consumed == old(consumed) + notes
      ensures shown == old(shown) + Shown(notes, includeOwn)
      ensures if notes == [] then cursor == old(cursor) && lastId == old(lastId)
              else cursor == Some(notes[|notes| - 1].created) && lastId == Some(notes[|notes| - 1].id)
    {
      var i := 0;
      while i < |notes|
        invariant 0 <= i <= |notes|
        invariant consumed == old(consumed) + notes[..i]
        invariant shown == old(shown) + Shown(notes[..i], includeOwn)
        invariant if i == 0 then cursor == old(cursor) && lastId == old(lastId)
                  else cursor == Some(notes[i - 1].created) && lastId == Some(notes[i - 1].id)
      {
        var note := notes[i];
        cursor := Some(note.created);
        lastId := Some(note.id);
        consumed := consumed + [note];
        assert notes[..i + 1][..i] == notes[..i];
        if includeOwn || !note.own {
          shown := shown + [note];
        }
        i := i + 1;
      }
      assert notes[..i] == notes;
    }
  }

  // ----- the two sides together -----

  /** `late` collects the notes that were stored at or before the client's cursor. */
  datatype Stream = Stream(log: seq<Note>, cursor: Option<int>, lastId: Option<int>, consumed: seq<Note>,
                           late: set<Note>)

  const OPENING := Stream([], None, None, [], {})

  datatype Event = Append(n: Note) | Poll(ok: bool)

  /** The database keeps its own order, whatever order notes arrive in. */
  function InsertSorted(log: seq<Note>, n: Note): seq<Note> {
    if log == [] || Less(n, log[0]) then [n] + log else [log[0]] + InsertSorted(log[1..], n)
  }

  /** Not behind the cursor: a later poll can still return it. */
  predicate Ahead(s: Stream, n: Note) {
    Selected(n, s.cursor, if s.cursor.Some? then s.lastId else None)
  }

  function PollPage(s: Stream): seq<Note> {
    Page(s.log, s.cursor, if s.cursor.Some? then s.lastId else None, PAGE_LIMIT)
  }

  function Happen(s: Stream, e: Event): Stream {
    match e
    case Append(n) =>
      s.(log := InsertSorted(s.log, n), late := if Ahead(s, n) then s.late else s.late + {n})
    case Poll(ok) =>
      var page := if ok then PollPage(s) else [];
      if page == [] then s
      else
        var last := page[|page| - 1];
        s.(cursor := Some(last.created), lastId := Some(last.id), consumed := s.consumed + page)
  }

  /** Primary keys are unique: an appended note ranks with none stored before. */
  predicate Fresh(s: Stream, e: Event) {
    e.Append? ==> forall i :: 0 <= i < |s.log| ==> Less(s.log[i], e.n) || Less(e.n, s.log[i])
  }

  ghost predicate Legal(s: Stream, es: seq<Event>)
    decreases |es|
  {
    es == [] || (Fresh(s, es[0]) && Legal(Happen(s, es[0]), es[1..]))
  }

  function HappenAll(s: Stream, es: seq<Event>): Stream
    decreases |es|
  {
    if es == [] then s else HappenAll(Happen(s, es[0]), es[1..])
  }

  /** How many notes of the log the cursor has passed. */
  function Passed(s: Stream, log: seq<Note>): nat {
    if log == [] || Ahead(s, log[0]) then 0 else 1 + Passed(s, log[1..])
  }

  function Drop(notes: seq<Note>, late: set<Note>): seq<Note> {
    if notes == [] then []
    else (if notes[0] in late then [] else [notes[0]]) + Drop(notes[1..], late)
  }

  lemma {:induction false} PassedSplits(s: Stream, log: seq<Note>)
    requires SortedLog(log) && (s.cursor.Some? <==> s.lastId.Some?)
    ensures var k := Passed(s, log);
            && k <= |log|
            && (forall i :: 0 <= i < k ==> !Ahead(s, log[i]))
            && (forall i :: k <= i < |log| ==> Ahead(s, log[i]))
  {
    if log != [] {
      if Ahead(s, log[0]) {
        forall i | 0 <= i < |log|
          ensures Ahead(s, log[i])
        {
          assert i == 0 || Less(log[0], log[i]);
        }
      } else {
        PassedSplits(s, log[1..]);
        assert forall i :: 1 <= i < |log| ==> log[i] == log[1..][i - 1];
      }
    }
  }

  lemma {:induction false} PassedIs(s: Stream, log: seq<Note>, k: nat)
    requires k <= |log|
    requires forall i :: 0 <= i < k ==> !Ahead(s, log[i])
    requires k < |log| ==> Ahead(s, log[k])
    ensures Passed(s, log) == k
  {
    if k > 0 {
      PassedIs(s, log[1..], k - 1);
    }
  }

  lemma {:induction false} PageOfAhead(log: seq<Note>, since: Option<int>, afterId: Option<int>, limit: nat)
    requires forall i :: 0 <= i < |log| ==> Selected(log[i], since, afterId)
    ensures Page(log, since, afterId, limit) == log[..if limit < |log| then limit else |log|]
  {
    if log != [] && limit > 0 {
      PageOfAhead(log[1..], since, afterId, limit - 1);
    }
  }

  lemma {:induction false} PageSkips(log: seq<Note>, since: Option<int>, afterId: Option<int>, limit: nat, k: nat)
    requires k <= |log| && forall i :: 0 <= i < k ==> !Selected(log[i], since, afterId)
    ensures Page(log, since, afterId, limit) == Page(log[k..], since, afterId, limit)
  {
    if k == 0 {
      assert log[0..] == log;
    } else {
      PageSkips(log[1..], since, afterId, limit, k - 1);
      assert log[1..][k - 1..] == log[k..];
    }
  }

  /** A poll returns the notes right after the cursor, up to the limit. */
  lemma PollReturnsNext(s: Stream)
    requires SortedLog(s.log) && (s.cursor.Some? <==> s.lastId.Some?)
    ensures var k := Passed(s, s.log);
            k <= |s.log| && PollPage(s) == s.log[k..k + Lesser(PAGE_LIMIT, |s.log| - k)]
  {
    PassedSplits(s, s.log);
    var k := Passed(s, s.log);
    var afterId := if s.cursor.Some? then s.lastId else None;
    PageSkips(s.log, s.cursor, afterId, PAGE_LIMIT, k);
    PageOfAhead(s.log[k..], s.cursor, afterId, PAGE_LIMIT);
  }

  ghost predicate Valid(s: Stream) {
    var k := Passed(s, s.log);
    && (s.cursor.Some? <==> s.lastId.Some?)
    && SortedLog(s.log)
    && k <= |s.log|
    && s.consumed == Drop(s.log[..k], s.late)
    && (forall n :: n in s.late ==> n in s.log[..k])
  }

  lemma {:induction false} DropAppend(a: seq<Note>, b: seq<Note>, late: set<Note>)
    ensures Drop(a + b, late) == Drop(a, late) + Drop(b, late)
  {
    if a == [] {
      assert a + b == b;
    } else {
      assert (a + b)[1..] == a[1..] + b;
      DropAppend(a[1..], b, late);
    }
  }

  lemma {:induction false} DropNone(a: seq<Note>, late: set<Note>)
    requires forall i :: 0 <= i < |a| ==> a[i] !in late
    ensures Drop(a, late) == a
  {
    if a != [] {
      DropNone(a[1..], late);
    }
  }

  lemma {:induction false} DropSame(a: seq<Note>, late: set<Note>, n: Note)
    requires n !in a
    ensures Drop(a, late + {n}) == Drop(a, late)
  {
    if a != [] {
      DropSame(a[1..], late, n);
    }
  }

  /** Where an inserted note lands. */
  lemma {:induction false} InsertLands(log: seq<Note>, n: Note) returns (p: nat)
    requires SortedLog(log) && forall i :: 0 <= i < |log| ==> Less(log[i], n) || Less(n, log[i])
    ensures p <= |log| && InsertSorted(log, n) == log[..p] + [n] + log[p..]
    ensures SortedLog(InsertSorted(log, n))
    ensures forall i :: 0 <= i < p ==> Less(log[i], n)
    ensures forall i :: p <= i < |log| ==> Less(n, log[i])
  {
    if log == [] || Less(n, log[0]) {
      p := 0;
      assert forall i :: 1 <= i < |log| ==> Less(log[0], log[i]);
    } else {
      p := InsertLands(log[1..], n);
      assert log[..p + 1] == [log[0]] + log[1..][..p];
      assert log[p + 1..] == log[1..][p..];
      assert InsertSorted(log, n) == [log[0]] + (log[1..][..p] + [n] + log[1..][p..]);
      forall i | 0 <= i < p + 1
        ensures Less(log[i], n)
      {
        assert i > 0 ==> log[i] == log[1..][i - 1];
      }
      forall i | p + 1 <= i < |log|
        ensures Less(n, log[i])
      {
        assert log[i] == log[1..][i - 1];
      }
      p := p + 1;
    }
  }

  lemma LateInsertIgnored(a: seq<Note>, n: Note, b: seq<Note>, late: set<Note>)
    requires n !in a && n !in b
    ensures Drop(a + ([n] + b), late + {n}) == Drop(a + b, late)
  {
    DropAppend(a, [n] + b, late + {n});
    DropAppend([n], b, late + {n});
    DropAppend(a, b, late);
    DropSame(a, late, n);
    DropSame(b, late, n);
    assert Drop([n], late + {n}) == [] by {
      assert [n][1..] == [];
    }
  }

  lemma LatePrefix(log: seq<Note>, n: Note, p: nat, late: set<Note>)
    requires p <= |log| && n !in log
    requires forall m :: m in late ==> m in log
    ensures var log' := log[..p] + ([n] + log[p..]);
            && Drop(log', late + {n}) == Drop(log, late)
            && forall m :: m in late + {n} ==> m in log'
  {
    var log' := log[..p] + ([n] + log[p..]);
    assert log == log[..p] + log[p..];
    LateInsertIgnored(log[..p], n, log[p..], late);
    assert log'[p] == n;
    forall m | m in late
      ensures m in log'
    {
      var i :| 0 <= i < |log| && log[i] == m;
      assert log'[if i < p then i else i + 1] == m;
    }
  }

  lemma PrefixGrows(log: seq<Note>, k: nat, k': nat, late: set<Note>)
    requires k <= k' <= |log| && Drop(log[k..k'], late) == log[k..k']
    requires forall m :: m in late ==> m in log[..k]
    ensures Drop(log[..k'], late) == Drop(log[..k], late) + log[k..k']
    ensures forall m :: m in late ==> m in log[..k']
  {
    assert log[..k'] == log[..k] + log[k..k'];
    DropAppend(log[..k], log[k..k'], late);
  }

  /** Where an insertion shows in the stored sequence. */
  lemma InsertedAt(log: seq<Note>, n: Note, p: nat)
    requires p <= |log|
    ensures var log' := log[..p] + [n] + log[p..];
            && |log'| == |log| + 1 && log'[p] == n
            && (forall i :: 0 <= i < p ==> log'[i] == log[i])
            && (forall i :: p < i <= |log| ==> log'[i] == log[i - 1])
  {
  }

  /** A note after the cursor leaves the passed part as it was. */
  lemma AppendAhead(s: Stream, n: Note)
    requires Valid(s) && Fresh(s, Append(n)) && Ahead(s, n)
    ensures Valid(Happen(s, Append(n)))
  {
    var s' := Happen(s, Append(n));
    var k := Passed(s, s.log);
    PassedSplits(s, s.log);
    var p := InsertLands(s.log, n);
    InsertedAt(s.log, n, p);
    assert p < |s.log| ==> Less(n, s.log[p]) && Ahead(s, s.log[p]);
    assert k <= p;
    assert forall i :: 0 <= i < k ==> s'.log[i] == s.log[i];
    assert k < |s'.log| ==> Ahead(s', s'.log[k]);
    PassedIs(s', s'.log, k);
    assert s'.log[..k] == s.log[..k];
  }

  /** A note behind the cursor lands in the passed part. */
  lemma LateLands(s: Stream, n: Note) returns (p: nat)
    requires Valid(s) && Fresh(s, Append(n)) && !Ahead(s, n)
    ensures var k := Passed(s, s.log);
            var s' := Happen(s, Append(n));
            && p <= k <= |s.log| && SortedLog(s'.log)
            && s'.log == s.log[..p] + [n] + s.log[p..]
            && Passed(s', s'.log) == k + 1
  {
    var s' := Happen(s, Append(n));
    var k := Passed(s, s.log);
    PassedSplits(s, s.log);
    p := InsertLands(s.log, n);
    InsertedAt(s.log, n, p);
    assert 0 < p ==> Less(s.log[p - 1], n) && !Ahead(s, s.log[p - 1]);
    forall i | 0 <= i < k + 1
      ensures !Ahead(s', s'.log[i])
    {
      assert s'.log[i] == if i < p then s.log[i] else if i == p then n else s.log[i - 1];
    }
    assert k + 1 < |s'.log| ==> s'.log[k + 1] == s.log[k];
    PassedIs(s', s'.log, k + 1);
  }

  /** A note behind the cursor is skipped for good: it joins the passed part, marked late. */
  lemma AppendLate(s: Stream, n: Note)
    requires Valid(s) && Fresh(s, Append(n)) && !Ahead(s, n)
    ensures Valid(Happen(s, Append(n)))
  {
    var passed := s.log[..Passed(s, s.log)];
    var p := LateLands(s, n);
    assert Happen(s, Append(n)).log[..|passed| + 1] == passed[..p] + ([n] + passed[p..]);
    forall i | 0 <= i < |passed|
      ensures passed[i] != n
    {
      assert Less(s.log[i], n) || Less(n, s.log[i]);
    }
    LatePrefix(passed, n, p, s.late);
  }

  lemma AppendKeepsValid(s: Stream, n: Note)
    requires Valid(s) && Fresh(s, Append(n))
    ensures Valid(Happen(s, Append(n)))
  {
    if Ahead(s, n) {
      AppendAhead(s, n);
    } else {
      AppendLate(s, n);
    }
  }

  /** A nonempty page moves the cursor to its last note. */
  lemma PollAdvances(s: Stream)
    requires Valid(s) && PollPage(s) != []
    ensures Passed(Happen(s, Poll(true)), s.log) == Passed(s, s.log) + |PollPage(s)| <= |s.log|
  {
    var s' := Happen(s, Poll(true));
    var k := Passed(s, s.log);
    PollReturnsNext(s);
    var page := PollPage(s);
    var k' := k + |page|;
    var last := s.log[k' - 1];
    assert page[|page| - 1] == last;
    forall i | 0 <= i < k'
      ensures !Ahead(s', s.log[i])
    {
      assert i == k' - 1 || Less(s.log[i], last);
    }
    assert k' < |s.log| ==> Less(last, s.log[k']);
    PassedIs(s', s.log, k');
  }

  /** Nothing on the next page was late. */
  lemma PageNotLate(s: Stream)
    requires Valid(s)
    ensures Drop(PollPage(s), s.late) == PollPage(s)
  {
    var k := Passed(s, s.log);
    PollReturnsNext(s);
    var page := PollPage(s);
    forall i | 0 <= i < |page|
      ensures page[i] !in s.late
    {
      assert forall j :: 0 <= j < k ==> Less(s.log[j], page[i]) && s.log[j] != page[i];
    }
    DropNone(page, s.late);
  }

  /** The cursor has passed a further stretch of the log, and the client has consumed it. */
  lemma StretchConsumed(s: Stream, s': Stream, page: seq<Note>)
    requires Valid(s) && s'.log == s.log && s'.late == s.late && s'.consumed == s.consumed + page
    requires s'.cursor.Some? && s'.lastId.Some?
    requires var k := Passed(s, s.log);
             && Passed(s', s.log) == k + |page| <= |s.log|
             && page == s.log[k..k + |page|] && Drop(page, s.late) == page
    ensures Valid(s')
  {
    var k := Passed(s, s.log);
    PrefixGrows(s.log, k, k + |page|, s.late);
  }

  lemma PollKeepsConsumed(s: Stream)
    requires Valid(s) && PollPage(s) != []
    ensures Valid(Happen(s, Poll(true)))
    ensures Passed(Happen(s, Poll(true)), s.log) == Passed(s, s.log) + |PollPage(s)|
  {
    PollAdvances(s);
    PollReturnsNext(s);
    PageNotLate(s);
    StretchConsumed(s, Happen(s, Poll(true)), PollPage(s));
  }

  lemma PollKeepsValid(s: Stream, ok: bool)
    requires Valid(s)
    ensures Valid(Happen(s, Poll(ok)))
    ensures Passed(s, s.log) <= |s.log|
    ensures ok ==> Passed(Happen(s, Poll(ok)), s.log)
                   == Passed(s, s.log) + Lesser(PAGE_LIMIT, |s.log| - Passed(s, s.log))
  {
    var k := Passed(s, s.log);
    PollReturnsNext(s);
    var page := PollPage(s);
    if ok && page != [] {
      PollKeepsConsumed(s);
    }
  }

  lemma {:induction false} RunKeepsValid(s: Stream, es: seq<Event>)
    requires Valid(s) && Legal(s, es)
    ensures Valid(HappenAll(s, es))
    decreases |es|
  {
    if es != [] {
      match es[0] {
        case Append(n) => AppendKeepsValid(s, n);
        case Poll(ok) => PollKeepsValid(s, ok);
      }
      RunKeepsValid(Happen(s, es[0]), es[1..]);
    }
  }

  /** Under any interleaving of arriving notes and polls, failed polls included, the client has
      consumed exactly the notes up to its cursor, each once and in order, except those stored behind
      the cursor; and the next successful poll returns what follows, up to the page limit. */
  lemma ConsumedUpToCursor(es: seq<Event>)
    requires Legal(OPENING, es)
    ensures var s := HappenAll(OPENING, es);
            var k := Passed(s, s.log);
            && SortedLog(s.log) && k <= |s.log|
            && s.consumed == Drop(s.log[..k], s.late)
            && PollPage(s) == s.log[k..k + Lesser(PAGE_LIMIT, |s.log| - k)]
  {
    RunKeepsValid(OPENING, es);
    PollReturnsNext(HappenAll(OPENING, es));
  }

  lemma {:induction false} DropShorter(a: seq<Note>, late: set<Note>)
    ensures |Drop(a, late)| <= |a|
    ensures (exists i :: 0 <= i < |a| && a[i] in late) ==> |Drop(a, late)| < |a|
  {
    if a != [] {
      DropShorter(a[1..], late);
      if i :| 0 <= i < |a| && a[i] in late {
        if i > 0 {
          assert a[1..][i - 1] in late;
        }
      }
    }
  }

  /** The consumed notes are a prefix of the log, with nothing skipped, exactly when no note was ever
      stored behind the cursor. */
  lemma PrefixExactlyWhenNoneLate(es: seq<Event>)
    requires Legal(OPENING, es)
    ensures var s := HappenAll(OPENING, es);
            && Passed(s, s.log) <= |s.log|
            && (s.consumed == s.log[..Passed(s, s.log)] <==> s.late == {})
  {
    RunKeepsValid(OPENING, es);
    var s := HappenAll(OPENING, es);
    var k := Passed(s, s.log);
    if s.late == {} {
      DropNone(s.log[..k], s.late);
    } else {
      var n :| n in s.late;
      assert n in s.log[..k];
      DropShorter(s.log[..k], s.late);
    }
  }

  // ----- a note stored behind the cursor -----

  lemma {:induction false} HappenAppend(s: Stream, a: seq<Event>, b: seq<Event>)
    ensures HappenAll(s, a + b) == HappenAll(HappenAll(s, a), b)
    ensures Legal(s, a + b) <==> Legal(s, a) && Legal(HappenAll(s, a), b)
    decreases |a|
  {
    if a == [] {
      assert a + b == b;
    } else {
      assert (a + b)[1..] == a[1..] + b;
      HappenAppend(Happen(s, a[0]), a[1..], b);
    }
  }

  lemma OneEvent(s: Stream, e: Event)
    ensures HappenAll(s, [e]) == Happen(s, e)
    ensures Legal(s, [e]) <==> Fresh(s, e)
  {
    assert [e][1..] == [];
    assert HappenAll(Happen(s, e), []) == Happen(s, e);
  }

  lemma {:induction false} LateGrows(s: Stream, es: seq<Event>)
    ensures s.late <= HappenAll(s, es).late
    decreases |es|
  {
    if es != [] {
      LateGrows(Happen(s, es[0]), es[1..]);
    }
  }

  lemma {:induction false} DropHas(a: seq<Note>, late: set<Note>, n: Note)
    ensures n in Drop(a, late) <==> n in a && n !in late
  {
    if a != [] {
      DropHas(a[1..], late, n);
    }
  }

  /** Whatever happens next, a late note is never consumed. */
  lemma LateNeverConsumed(s: Stream, n: Note, es: seq<Event>)
    requires Valid(s) && n in s.late && Legal(s, es)
    ensures n !in HappenAll(s, es).consumed
  {
    RunKeepsValid(s, es);
    LateGrows(s, es);
    var s' := HappenAll(s, es);
    DropHas(s'.log[..Passed(s', s'.log)], s'.late, n);
  }

  /** Enough successful polls in a row reach the end of the log. */
  lemma {:induction false} CatchUp(s: Stream) returns (es: seq<Event>)
    requires Valid(s)
    ensures Legal(s, es) && Valid(HappenAll(s, es))
    ensures var s' := HappenAll(s, es);
            s'.log == s.log && s'.late == s.late && Passed(s', s'.log) == |s.log|
    decreases |s.log| - Passed(s, s.log)
  {
    if Passed(s, s.log) == |s.log| {
      es := [];
    } else {
      PollKeepsValid(s, true);
      var rest := CatchUp(Happen(s, Poll(true)));
      es := [Poll(true)] + rest;
    }
  }

  /** A note is delivered in some continuation exactly when it is stored ahead of the cursor. */
  lemma DeliveredExactlyWhenAhead(es: seq<Event>, n: Note)
    requires Legal(OPENING, es) && Fresh(HappenAll(OPENING, es), Append(n))
    ensures var s := HappenAll(OPENING, es);
            var s1 := Happen(s, Append(n));
            Ahead(s, n) <==> exists more :: Legal(s1, more) && n in HappenAll(s1, more).consumed
  {
    RunKeepsValid(OPENING, es);
    var s := HappenAll(OPENING, es);
    var s1 := Happen(s, Append(n));
    AppendKeepsValid(s, n);
    if Ahead(s, n) {
      var p := InsertLands(s.log, n);
      assert s1.log[p] == n;
      var more := CatchUp(s1);
      var s2 := HappenAll(s1, more);
      assert s2.log[..|s2.log|] == s2.log;
      assert n !in s.late by {
        assert n !in s.log;
        assert forall m :: m in s.late ==> m in s.log[..Passed(s, s.log)] && m in s.log;
      }
      DropHas(s2.log, s2.late, n);
    } else {
      forall more | Legal(s1, more)
        ensures n !in HappenAll(s1, more).consumed
      {
        LateNeverConsumed(s1, n, more);
      }
    }
  }

  /** So the board loses a note: once the later of two notes has been polled, the earlier one may still be stored,
      and then no poll ever returns it. */
  lemma LateNoteIsLost(a: Note, b: Note, more: seq<Event>)
    requires Less(a, b)
    requires Legal(HappenAll(OPENING, [Append(b), Poll(true), Append(a)]), more)
    ensures var es := [Append(b), Poll(true), Append(a)];
            && Legal(OPENING, es)
            && HappenAll(OPENING, es).late == {a}
            && a in HappenAll(OPENING, es).log
            && a !in HappenAll(OPENING, es + more).consumed
  {
    var es := [Append(b), Poll(true), Append(a)];
    var s1 := Happen(OPENING, Append(b));
    assert s1.log == [b] && Page([b], None, None, PAGE_LIMIT) == [b] by {
      assert [b][1..] == [];
    }
    var s2 := Happen(s1, Poll(true));
    assert s2.cursor == Some(b.created) && s2.lastId == Some(b.id);
    var s3 := Happen(s2, Append(a));
    assert s3.log == [a] + [b];
    assert es == [Append(b)] + ([Poll(true)] + [Append(a)]);
    OneEvent(OPENING, Append(b));
    OneEvent(s1, Poll(true));
    OneEvent(s2, Append(a));
    HappenAppend(s1, [Poll(true)], [Append(a)]);
    HappenAppend(OPENING, [Append(b)], [Poll(true)] + [Append(a)]);
    RunKeepsValid(OPENING, es);
    LateNeverConsumed(s3, a, more);
    HappenAppend(OPENING, es, more);
  }

  /** Every append ranks after everything stored before it. */
  ghost predicate InOrder(s: Stream, es: seq<Event>)
    decreases |es|
  {
    es == []
    || ((es[0].Append? ==> forall i :: 0 <= i < |s.log| ==> Less(s.log[i], es[0].n))
        && InOrder(Happen(s, es[0]), es[1..]))
  }

  lemma {:induction false} InOrderIsLegal(s: Stream, es: seq<Event>)
    requires InOrder(s, es)
    ensures Legal(s, es)
    decreases |es|
  {
    if es != [] {
      InOrderIsLegal(Happen(s, es[0]), es[1..]);
    }
  }

  /** The cursor names a stored note. */
  ghost predicate CursorStored(s: Stream) {
    s.cursor.Some? ==> exists i :: 0 <= i < |s.log| && NamedBy(s, s.log[i])
  }

  predicate NamedBy(s: Stream, n: Note) {
    s.cursor == Some(n.created) && s.lastId == Some(n.id)
  }

  /** The cursor never runs ahead of the log, so an append in order is never late. */
  lemma AppendInOrder(s: Stream, n: Note)
    requires Valid(s) && CursorStored(s) && forall i :: 0 <= i < |s.log| ==> Less(s.log[i], n)
    ensures Happen(s, Append(n)).late == s.late && CursorStored(Happen(s, Append(n)))
  {
    var p := InsertLands(s.log, n);
    InsertedAt(s.log, n, p);
    if s.cursor.Some? {
      var i :| 0 <= i < |s.log| && NamedBy(s, s.log[i]);
      var s' := Happen(s, Append(n));
      assert NamedBy(s', s'.log[if i < p then i else i + 1]);
    }
  }

  lemma PollKeepsCursorStored(s: Stream, ok: bool)
    requires Valid(s) && CursorStored(s)
    ensures Happen(s, Poll(ok)).late == s.late && CursorStored(Happen(s, Poll(ok)))
  {
    PollReturnsNext(s);
    var page := PollPage(s);
    if ok && page != [] {
      var s' := Happen(s, Poll(ok));
      assert NamedBy(s', s'.log[Passed(s, s.log) + |page| - 1]);
    }
  }

  lemma {:induction false} InOrderNeverLate(s: Stream, es: seq<Event>)
    requires Valid(s) && InOrder(s, es) && s.late == {} && CursorStored(s)
    ensures HappenAll(s, es).late == {}
    decreases |es|
  {
    if es != [] {
      match es[0] {
        case Append(n) =>
          AppendKeepsValid(s, n);
          AppendInOrder(s, n);
        case Poll(ok) =>
          PollKeepsValid(s, ok);
          PollKeepsCursorStored(s, ok);
      }
      InOrderNeverLate(Happen(s, es[0]), es[1..]);
    }
  }

  /** With notes arriving in order, nothing is skipped and nothing repeated over any run. */
  lemma NothingSkippedOrRepeated(es: seq<Event>)
    requires InOrder(OPENING, es)
    ensures var s := HappenAll(OPENING, es);
            && |s.consumed| <= |s.log|
            && s.consumed == s.log[..|s.consumed|]
            && (forall i, j :: 0 <= i < j < |s.consumed| ==> Less(s.consumed[i], s.consumed[j]))
            && PollPage(s) == s.log[|s.consumed|..|s.consumed| + Lesser(PAGE_LIMIT, |s.log| - |s.consumed|)]
  {
    InOrderIsLegal(OPENING, es);
    InOrderNeverLate(OPENING, es);
    ConsumedUpToCursor(es);
    PrefixExactlyWhenNoneLate(es);
  }
}
