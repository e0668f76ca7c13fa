/** The resolver of `app/memory/authority.py`: facts from three memory layers, the stable
    descending sort that picks a winner, conflict detection and resolution. */
module Authority {
  import opened Collections
  import opened Wrappers

  datatype Key = Key(text: string)
  datatype Value = Value(text: string)
  datatype MemorySource = Vector | KnowledgeGraph | Conversation
  datatype MemoryFact = MemoryFact(key: Key, value: Value, source: MemorySource, timestamp: real, confidence: real)
  datatype Reason =
    | NoFacts
    | SingleSource
    | HigherAuthority(over: MemorySource)
    | LatestTimestamp
    | HighestConfidence
  datatype MemoryConflict =
    MemoryConflict(key: Key, facts: seq<MemoryFact>, winner: Option<MemoryFact>, reason: Reason)

  const KG_CONFIDENCE_THRESHOLD := 0.8

  // ---- The order --------------------------------------------------------------------------

  function Rank(s: MemorySource): int {
    match s
    case Vector => 1
    case KnowledgeGraph => 2
    case Conversation => 3
  }

  /** Lexicographic on source, timestamp and confidence. */
  predicate Below(a: MemoryFact, b: MemoryFact) {
    || Rank(a.source) < Rank(b.source)
    || (a.source == b.source && a.timestamp < b.timestamp)
    || (a.source == b.source && a.timestamp == b.timestamp && a.confidence < b.confidence)
  }

  lemma BelowTransitive(a: MemoryFact, b: MemoryFact, c: MemoryFact)
    ensures Below(a, b) && !Below(c, b) ==> Below(a, c)
    ensures !Below(b, a) && Below(b, c) ==> Below(a, c)
    ensures !Below(a, b) && !Below(b, c) ==> !Below(a, c)
    ensures !(Below(a, b) && Below(b, a))
  {
  }

  /** The earliest of the greatest facts. */
  ghost predicate IsFirstMax(fs: seq<MemoryFact>, i: int) {
    && 0 <= i < |fs|
    && (forall j :: 0 <= j < i ==> Below(fs[j], fs[i]))
    && (forall j :: i < j < |fs| ==> !Below(fs[i], fs[j]))
  }

  lemma {:induction false} FirstMaxExists(fs: seq<MemoryFact>) returns (i: int)
    requires fs != []
    ensures IsFirstMax(fs, i)
  {
    if |fs| == 1 {
      return 0;
    }
    var rest := fs[1..];
    var k := FirstMaxExists(rest);
    hide Below;
    forall j | 0 < j < |fs| ensures j == k + 1 || !Below(rest[k], fs[j]) || Below(fs[j], rest[k]) {
      assert fs[j] == rest[j - 1];
    }
    i := if Below(fs[0], rest[k]) then k + 1 else 0;
    forall j | 0 < j < |fs| ensures !Below(rest[k], fs[j]) {
      assert fs[j] == rest[j - 1];
      BelowTransitive(fs[j], rest[k], rest[k]);
      BelowTransitive(fs[j], rest[k], fs[j]);
    }
    if i == 0 {
      forall j | 0 < j < |fs| ensures !Below(fs[0], fs[j]) {
        BelowTransitive(fs[0], rest[k], fs[j]);
      }
    } else {
      forall j | 0 <= j < i ensures Below(fs[j], fs[i]) {
        if j > 0 {
          assert fs[j] == rest[j - 1];
        }
      }
    }
  }

  // ---- The sort ---------------------------------------------------------------------------

  function Insert(f: MemoryFact, s: seq<MemoryFact>): (r: seq<MemoryFact>)
    ensures |r| == |s| + 1
  {
    if s == [] || !Below(f, s[0]) then [f] + s else [s[0]] + Insert(f, s[1..])
  }

  /** `sorted(facts, key=(source, timestamp, confidence), reverse=True)` */
  function SortDescending(fs: seq<MemoryFact>): (r: seq<MemoryFact>)
    ensures |r| == |fs|
  {
    if fs == [] then [] else Insert(fs[0], SortDescending(fs[1..]))
  }

  ghost predicate Descending(s: seq<MemoryFact>) {
    forall i, j :: 0 <= i < j < |s| ==> !Below(s[i], s[j])
  }

  predicate Tied(p: MemoryFact, f: MemoryFact) {
    !Below(p, f) && !Below(f, p)
  }

  lemma TiedNotBelow(p: MemoryFact, a: MemoryFact, b: MemoryFact)
    requires Tied(p, a) && Tied(p, b)
    ensures !Below(a, b)
  {
  }

  /** The facts that compare equal to `p`, in order. */
  function Ties(p: MemoryFact, s: seq<MemoryFact>): seq<MemoryFact> {
    if s == [] then [] else (if Tied(p, s[0]) then [s[0]] else []) + Ties(p, s[1..])
  }

  lemma {:induction false} InsertMultiset(f: MemoryFact, s: seq<MemoryFact>)
    ensures multiset(Insert(f, s)) == multiset{f} + multiset(s)
  {
    hide Below;
    if s != [] {
      InsertMultiset(f, s[1..]);
      assert s == [s[0]] + s[1..];
    }
  }

  lemma InsertMembers(f: MemoryFact, s: seq<MemoryFact>, g: MemoryFact)
    requires g in Insert(f, s)
    ensures g == f || g in s
  {
    hide Insert;
    InsertMultiset(f, s);
    assert g in multiset(Insert(f, s));
  }

  lemma {:induction false} InsertTies(f: MemoryFact, s: seq<MemoryFact>, p: MemoryFact)
    ensures Ties(p, Insert(f, s)) == Ties(p, [f] + s)
  {
    hide Below, Tied;
    assert ([f] + s)[1..] == s;
    if s != [] && Below(f, s[0]) {
      var rest := s[1..];
      InsertTies(f, rest, p);
      assert ([f] + rest)[1..] == rest && ([s[0]] + Insert(f, rest))[1..] == Insert(f, rest);
      if Tied(p, f) && Tied(p, s[0]) {
        TiedNotBelow(p, f, s[0]);
      }
    }
  }

  lemma {:induction false} InsertDescending(f: MemoryFact, s: seq<MemoryFact>)
    requires Descending(s)
    ensures Descending(Insert(f, s))
  {
    hide Below;
    if s == [] {
    } else if !Below(f, s[0]) {
      forall j | 0 <= j < |s| ensures !Below(f, s[j]) {
        BelowTransitive(f, s[0], s[j]);
      }
    } else {
      var rest := s[1..];
      var tail := Insert(f, rest);
      InsertDescending(f, rest);
      forall j | 0 <= j < |tail| ensures !Below(s[0], tail[j]) {
        InsertMembers(f, rest, tail[j]);
        BelowTransitive(f, s[0], f);
        BelowTransitive(s[0], f, s[0]);
      }
      hide Insert;
      assert Insert(f, s) == [s[0]] + tail;
    }
  }

  /** The sort is a permutation in descending order that keeps equal facts in their order. */
  lemma {:induction false} SortExact(fs: seq<MemoryFact>, p: MemoryFact)
    ensures multiset(SortDescending(fs)) == multiset(fs)
    ensures Descending(SortDescending(fs))
    ensures Ties(p, SortDescending(fs)) == Ties(p, fs)
  {
    hide Below, Insert, Descending, Tied;
    if fs == [] {
      DescendingEmpty();
    } else {
      var rest := fs[1..];
      var sorted := SortDescending(rest);
      SortExact(rest, p);
      InsertMultiset(fs[0], sorted);
      InsertDescending(fs[0], sorted);
      InsertTies(fs[0], sorted, p);
      assert fs == [fs[0]] + rest;
      assert ([fs[0]] + sorted)[1..] == sorted;
    }
  }

  lemma DescendingEmpty()
    ensures Descending([])
  {
  }

  function Without(fs: seq<MemoryFact>, i: int): seq<MemoryFact>
    requires 0 <= i < |fs|
  {
    fs[..i] + fs[i + 1..]
  }

  /** The sorted list is the first maximum, then the sorted rest. */
  lemma {:induction false} SortPeels(fs: seq<MemoryFact>, i: int)
    requires IsFirstMax(fs, i)
    ensures SortDescending(fs) == [fs[i]] + SortDescending(Without(fs, i))
  {
    hide Below, Insert;
    var rest := fs[1..];
    if i == 0 {
      assert Without(fs, 0) == rest;
      SortExact(rest, fs[0]);
      InsertTop(fs[0], SortDescending(rest), rest);
    } else {
      RestFirstMax(fs, i);
      SortPeels(rest, i - 1);
      PeelCommutes(fs, i);
      InsertPast(fs[0], fs[i], SortDescending(Without(rest, i - 1)));
    }
  }

  lemma InsertTop(f: MemoryFact, s: seq<MemoryFact>, fs: seq<MemoryFact>)
    requires multiset(s) == multiset(fs) && forall j :: 0 <= j < |fs| ==> !Below(f, fs[j])
    ensures Insert(f, s) == [f] + s
  {
    hide Below;
    if s != [] {
      assert s[0] in multiset(fs);
    }
  }

  lemma InsertPast(f: MemoryFact, top: MemoryFact, s: seq<MemoryFact>)
    requires Below(f, top)
    ensures Insert(f, [top] + s) == [top] + Insert(f, s)
  {
    assert ([top] + s)[1..] == s;
  }

  lemma RestFirstMax(fs: seq<MemoryFact>, i: int)
    requires IsFirstMax(fs, i) && i > 0
    ensures IsFirstMax(fs[1..], i - 1)
  {
    hide Below;
  }

  lemma PeelCommutes(fs: seq<MemoryFact>, i: int)
    requires 0 < i < |fs|
    ensures SortDescending(Without(fs, i)) == Insert(fs[0], SortDescending(Without(fs[1..], i - 1)))
  {
    assert Without(fs, i)[1..] == Without(fs[1..], i - 1);
  }

  // ---- Choosing a winner --------------------------------------------------------------------

  /** `_pick_winner` */
  function PickWinner(fs: seq<MemoryFact>): (Option<MemoryFact>, Reason) {
    if fs == [] then (None, NoFacts)
    else
      var sorted := SortDescending(fs);
      var winner := sorted[0];
      if |fs| == 1 then (Some(winner), SingleSource)
      else
        var runnerUp := sorted[1];
        (Some(winner),
         if winner.source != runnerUp.source then HigherAuthority(runnerUp.source)
         else if winner.timestamp != runnerUp.timestamp then LatestTimestamp
         else HighestConfidence)
  }

  /** The winner is the first lexicographic maximum. */
  lemma WinnerExact(fs: seq<MemoryFact>, i: int)
    requires IsFirstMax(fs, i)
    ensures PickWinner(fs).0 == Some(fs[i])
  {
    hide Below;
    SortPeels(fs, i);
  }

  /** The winner on the facts' own fields: the conversation goes before the knowledge graph and
      that before the vectors; within its source nothing is later, among those equally late
      nothing is more confident, and of several like it the winner is the first. */
  ghost predicate Wins(fs: seq<MemoryFact>, i: int) {
    0 <= i < |fs| && forall j :: 0 <= j < |fs| ==>
      && (fs[j].source == Conversation ==> fs[i].source == Conversation)
      && (fs[j].source == KnowledgeGraph ==> fs[i].source != Vector)
      && (fs[j].source == fs[i].source ==> fs[j].timestamp <= fs[i].timestamp)
      && (fs[j].source == fs[i].source && fs[j].timestamp == fs[i].timestamp ==>
            && fs[j].confidence <= fs[i].confidence
            && (fs[j].confidence == fs[i].confidence ==> i <= j))
  }

  lemma WinnerMeans(fs: seq<MemoryFact>)
    requires fs != []
    ensures exists i :: Wins(fs, i) && PickWinner(fs).0 == Some(fs[i])
  {
    var i := FirstMaxExists(fs);
    hide PickWinner;
    WinnerExact(fs, i);
    forall j | 0 <= j < |fs| ensures j < i ==> Below(fs[j], fs[i]) {
    }
    assert Wins(fs, i);
  }

  /** What a reason means: the first difference between the winner and all the other facts.
      `HighestConfidence` says only that source and timestamp did not settle it. */
  lemma ReasonExact(fs: seq<MemoryFact>, i: int)
    requires IsFirstMax(fs, i) && |fs| > 1
    ensures PickWinner(fs).1.HigherAuthority? <==>
              forall j :: 0 <= j < |fs| && j != i ==> Rank(fs[j].source) < Rank(fs[i].source)
    ensures PickWinner(fs).1.HigherAuthority? ==>
              && (exists j :: 0 <= j < |fs| && j != i && fs[j].source == PickWinner(fs).1.over)
              && (forall j :: 0 <= j < |fs| && j != i ==> Rank(fs[j].source) <= Rank(PickWinner(fs).1.over))
    ensures PickWinner(fs).1.HighestConfidence? <==>
              exists j :: 0 <= j < |fs| && j != i && fs[j].source == fs[i].source && fs[j].timestamp == fs[i].timestamp
    ensures PickWinner(fs).1 in {LatestTimestamp, HighestConfidence} || PickWinner(fs).1.HigherAuthority?
  {
    var j := RunnerUp(fs, i);
    forall m | 0 <= m < |fs| && m != i
      ensures Rank(fs[m].source) <= Rank(fs[j].source)
      ensures fs[m].source == fs[j].source ==> fs[m].timestamp <= fs[j].timestamp
    {
    }
  }

  /** The second place: below the winner or equal to it, and above every other fact. */
  lemma RunnerUp(fs: seq<MemoryFact>, i: int) returns (j: int)
    requires IsFirstMax(fs, i) && |fs| > 1
    ensures 0 <= j < |fs| && j != i && SortDescending(fs)[..2] == [fs[i], fs[j]]
    ensures !Below(fs[i], fs[j]) && forall m :: 0 <= m < |fs| && m != i ==> !Below(fs[j], fs[m])
  {
    hide Below, Insert;
    var others := Without(fs, i);
    var k := FirstMaxExists(others);
    SortPeels(fs, i);
    SortPeels(others, k);
    j := if k < i then k else k + 1;
    BelowTransitive(fs[j], fs[i], fs[j]);
    forall m | 0 <= m < |fs| && m != i ensures !Below(fs[j], fs[m]) {
      var n := if m < i then m else m - 1;
      assert fs[m] == others[n];
      BelowTransitive(others[n], others[k], others[n]);
      BelowTransitive(others[k], others[n], others[k]);
    }
  }

  // ---- Grouping -----------------------------------------------------------------------------

  function OfKey(k: Key, fs: seq<MemoryFact>): (r: seq<MemoryFact>)
    ensures forall f :: f in r <==> f in fs && f.key == k
  {
    if fs == [] then [] else OfKey(k, fs[..|fs| - 1]) + if fs[|fs| - 1].key == k then [fs[|fs| - 1]] else []
  }

  /** The keys, each at its first occurrence: the iteration order of the dictionary. */
  function KeysOf(fs: seq<MemoryFact>): (r: seq<Key>)
    ensures forall k :: k in r <==> exists f :: f in fs && f.key == k
  {
    if fs == [] then []
    else
      var front, last := fs[..|fs| - 1], fs[|fs| - 1];
      assert forall f :: f in fs <==> f in front || f == last;
      KeysOf(front) + if last.key in KeysOf(front) then [] else [last.key]
  }

  lemma {:induction false} KeysDistinct(fs: seq<MemoryFact>)
    ensures Distinct(KeysOf(fs))
  {
    if fs != [] {
      KeysDistinct(fs[..|fs| - 1]);
    }
  }

  ghost predicate Grouped(fs: seq<MemoryFact>, order: seq<Key>, groups: map<Key, seq<MemoryFact>>) {
    && order == KeysOf(fs)
    && (forall k :: k in groups <==> k in order)
    && (forall k :: k in groups ==> groups[k] == OfKey(k, fs))
  }

  lemma GroupAppend(fs: seq<MemoryFact>, n: nat, k: Key)
    requires n < |fs|
    ensures OfKey(k, fs[..n + 1]) == OfKey(k, fs[..n]) + if fs[n].key == k then [fs[n]] else []
    ensures KeysOf(fs[..n + 1]) == KeysOf(fs[..n]) + if fs[n].key in KeysOf(fs[..n]) then [] else [fs[n].key]
  {
    assert fs[..n + 1][..n] == fs[..n];
  }

  lemma SomeOfKey(k: Key, fs: seq<MemoryFact>)
    ensures OfKey(k, fs) != [] <==> k in KeysOf(fs)
  {
    hide KeysOf, OfKey;
    if OfKey(k, fs) != [] {
      assert OfKey(k, fs)[0] in fs;
    }
  }

  lemma GroupedStep(fs: seq<MemoryFact>, n: nat, order: seq<Key>, groups: map<Key, seq<MemoryFact>>)
    requires n < |fs| && Grouped(fs[..n], order, groups)
    ensures var k := fs[n].key;
            Grouped(fs[..n + 1], if k in groups then order else order + [k],
                    groups[k := (if k in groups then groups[k] else []) + [fs[n]]])
  {
    hide KeysOf, OfKey;
    var k := fs[n].key;
    forall key ensures OfKey(key, fs[..n + 1]) == OfKey(key, fs[..n]) + if key == k then [fs[n]] else [] {
      GroupAppend(fs, n, key);
    }
    GroupAppend(fs, n, k);
    if k !in groups {
      SomeOfKey(k, fs[..n]);
    }
  }

  /** `_group_by_key` */
  method GroupByKey(fs: seq<MemoryFact>) returns (order: seq<Key>, groups: map<Key, seq<MemoryFact>>)
    ensures Grouped(fs, order, groups)
  {
    hide Grouped;
    order, groups := [], map[];
    NothingGrouped();
    for n := 0 to |fs|
      invariant Grouped(fs[..n], order, groups)
    {
      GroupedStep(fs, n, order, groups);
      var f := fs[n];
      ghost var before := groups;
      if f.key !in groups {
        order, groups := order + [f.key], groups[f.key := []];
      }
      groups := groups[f.key := groups[f.key] + [f]];
      assert groups == before[f.key := (if f.key in before then before[f.key] else []) + [f]];
    }
    assert fs[..|fs|] == fs;
  }

  lemma NothingGrouped()
    ensures Grouped([], [], map[])
  {
  }

  // ---- Conflicts ----------------------------------------------------------------------------

  /** Two facts whose values differ once lower-cased. Nothing asks for two sources. */
  ghost predicate Disagree(fs: seq<MemoryFact>, lower: Value -> Value) {
    exists f, g :: f in fs && g in fs && lower(f.value) != lower(g.value)
  }

  function Conflict(k: Key, fs: seq<MemoryFact>): MemoryConflict {
    var (winner, reason) := PickWinner(OfKey(k, fs));
    MemoryConflict(k, OfKey(k, fs), winner, reason)
  }

  ghost predicate Detected(fs: seq<MemoryFact>, lower: Value -> Value, keys: seq<Key>, cs: seq<MemoryConflict>) {
    && (forall c :: c in cs ==> c == Conflict(c.key, fs))
    && (forall i, j :: 0 <= i < j < |cs| ==> cs[i].key != cs[j].key)
    && (forall k :: Reported(cs, k) <==> k in keys && Disagree(OfKey(k, fs), lower))
  }

  ghost predicate Earlier(keys: seq<Key>, a: Key, b: Key) {
    exists m, n :: 0 <= m < n < |keys| && keys[m] == a && keys[n] == b
  }

  /** The conflicts come in the order in which their keys first occur. */
  ghost predicate InKeyOrder(keys: seq<Key>, cs: seq<MemoryConflict>) {
    forall i, j :: 0 <= i < j < |cs| ==> Earlier(keys, cs[i].key, cs[j].key)
  }

  lemma OrderStep(keys: seq<Key>, n: nat, cs: seq<MemoryConflict>, c: MemoryConflict)
    requires n < |keys| && InKeyOrder(keys[..n], cs) && c.key == keys[n]
    requires forall i :: 0 <= i < |cs| ==> cs[i].key in keys[..n]
    ensures InKeyOrder(keys[..n + 1], cs) && InKeyOrder(keys[..n + 1], cs + [c])
  {
    var front, more, all := keys[..n], keys[..n + 1], cs + [c];
    forall i, j | 0 <= i < j < |all| ensures Earlier(more, all[i].key, all[j].key) {
      if j < |cs| {
        assert Earlier(front, cs[i].key, cs[j].key);
        var a, b :| 0 <= a < b < |front| && front[a] == cs[i].key && front[b] == cs[j].key;
        assert more[a] == all[i].key && more[b] == all[j].key;
      } else {
        assert cs[i].key in front;
        var a :| 0 <= a < |front| && front[a] == cs[i].key;
        assert more[a] == all[i].key && more[n] == c.key;
      }
    }
    forall i, j | 0 <= i < j < |cs| ensures Earlier(more, cs[i].key, cs[j].key) {
      assert Earlier(more, all[i].key, all[j].key);
    }
  }

  predicate Reported(cs: seq<MemoryConflict>, k: Key) {
    exists i :: 0 <= i < |cs| && cs[i].key == k
  }

  lemma ReportedAppend(cs: seq<MemoryConflict>, c: MemoryConflict, k: Key)
    ensures Reported(cs + [c], k) <==> Reported(cs, k) || c.key == k
  {
    var r := cs + [c];
    assert r[|cs|] == c;
    forall i | 0 <= i < |cs| ensures r[i] == cs[i] {
    }
    if Reported(cs, k) {
      var i :| 0 <= i < |cs| && cs[i].key == k;
      assert r[i].key == k;
    }
  }

  function LoweredValues(fs: seq<MemoryFact>, lower: Value -> Value): (r: set<Value>) {
    set f | f in fs :: lower(f.value)
  }

  lemma DisagreeExact(fs: seq<MemoryFact>, lower: Value -> Value)
    ensures Disagree(fs, lower) <==> |LoweredValues(fs, lower)| > 1
  {
    var s := LoweredValues(fs, lower);
    if Disagree(fs, lower) {
      var f, g :| f in fs && g in fs && lower(f.value) != lower(g.value);
      assert {lower(f.value), lower(g.value)} <= s;
      SubsetSize({lower(f.value), lower(g.value)}, s);
    } else if s != {} {
      var u :| u in s;
      assert s == {u};
    }
  }

  lemma DetectedStep(fs: seq<MemoryFact>, lower: Value -> Value, keys: seq<Key>, n: nat, cs: seq<MemoryConflict>)
    requires n < |keys| && Distinct(keys) && Detected(fs, lower, keys[..n], cs)
    ensures Detected(fs, lower, keys[..n + 1],
                     if Disagree(OfKey(keys[n], fs), lower) then cs + [Conflict(keys[n], fs)] else cs)
  {
    hide Disagree, OfKey, PickWinner, Reported;
    var k := keys[n];
    var c := Conflict(k, fs);
    assert keys[..n + 1] == keys[..n] + [k] && k !in keys[..n];
    if Disagree(OfKey(k, fs), lower) {
      forall key ensures Reported(cs + [c], key) <==> Reported(cs, key) || key == k {
        ReportedAppend(cs, c, key);
      }
      forall i | 0 <= i < |cs| ensures cs[i].key != k {
        ReportedAt(cs, i);
      }
    }
  }

  lemma DetectedKeys(fs: seq<MemoryFact>, lower: Value -> Value, keys: seq<Key>, cs: seq<MemoryConflict>)
    requires Detected(fs, lower, keys, cs)
    ensures forall i :: 0 <= i < |cs| ==> cs[i].key in keys
  {
    hide Reported, Disagree, OfKey, PickWinner;
    forall i | 0 <= i < |cs| ensures cs[i].key in keys {
      ReportedAt(cs, i);
    }
  }

  lemma ReportedAt(cs: seq<MemoryConflict>, i: nat)
    requires i < |cs|
    ensures Reported(cs, cs[i].key)
  {
  }

  /** `detect_conflicts`: exactly one conflict for each key with two facts that disagree, in the
      order of the keys, with all the facts of that key and the winner among them. */
  method DetectConflicts(fs: seq<MemoryFact>, lower: Value -> Value) returns (conflicts: seq<MemoryConflict>)
    ensures Detected(fs, lower, KeysOf(fs), conflicts) && InKeyOrder(KeysOf(fs), conflicts)
  {
    hide Detected, InKeyOrder, Disagree, OfKey, PickWinner, KeysOf;
    var order, groups := GroupByKey(fs);
    KeysDistinct(fs);
    conflicts := [];
    NothingDetected(fs, lower);
    for n := 0 to |order|
      invariant Detected(fs, lower, order[..n], conflicts) && InKeyOrder(order[..n], conflicts)
    {
      var key := order[n];
      var keyFacts := groups[key];
      var uniqueValues := LoweredValues(keyFacts, lower);
      DetectedStep(fs, lower, order, n, conflicts);
      DetectedKeys(fs, lower, order[..n], conflicts);
      OrderStep(order, n, conflicts, Conflict(key, fs));
      DisagreeExact(keyFacts, lower);
      if |uniqueValues| > 1 {
        var (winner, reason) := PickWinner(keyFacts);
        conflicts := conflicts + [MemoryConflict(key, keyFacts, winner, reason)];
      }
    }
    assert order[..|order|] == order;
  }

  lemma NothingDetected(fs: seq<MemoryFact>, lower: Value -> Value)
    ensures Detected(fs, lower, [], []) && InKeyOrder([], [])
  {
  }

  // ---- Resolution ---------------------------------------------------------------------------

  predicate Qualifies(f: MemoryFact, threshold: real) {
    !(f.source == KnowledgeGraph && f.confidence < threshold)
  }

  function Qualified(fs: seq<MemoryFact>, threshold: real): (r: seq<MemoryFact>)
    ensures forall f :: f in r <==> f in fs && (f.source != KnowledgeGraph || f.confidence >= threshold)
  {
    if fs == [] then []
    else
      Qualified(fs[..|fs| - 1], threshold)
      + if Qualifies(fs[|fs| - 1], threshold) then [fs[|fs| - 1]] else []
  }

  ghost predicate Resolved(fs: seq<MemoryFact>, keys: seq<Key>, resolved: map<Key, MemoryFact>) {
    && (forall k :: k in resolved <==> k in keys)
    && (forall k :: k in resolved ==> Some(resolved[k]) == PickWinner(OfKey(k, fs)).0)
  }

  /** `resolve_all` */
  method ResolveAll(fs: seq<MemoryFact>, threshold: real := KG_CONFIDENCE_THRESHOLD)
      returns (resolved: map<Key, MemoryFact>)
    ensures Resolved(Qualified(fs, threshold), KeysOf(Qualified(fs, threshold)), resolved)
  {
    var qualified := Qualified(fs, threshold);
    var order, groups := GroupByKey(qualified);
    resolved := map[];
    hide PickWinner, OfKey, KeysOf;
    for n := 0 to |order|
      invariant Resolved(qualified, order[..n], resolved)
    {
      var key := order[n];
      var (winner, _) := PickWinner(groups[key]);
      SomeOfKey(key, qualified);
      WinnerPresent(groups[key]);
      if winner.Some? {
        resolved := resolved[key := winner.value];
      }
    }
    assert order[..|order|] == order;
  }

  lemma WinnerPresent(fs: seq<MemoryFact>)
    ensures PickWinner(fs).0.Some? <==> fs != []
  {
  }

  lemma {:induction false} QualifiedFirstMax(fs: seq<MemoryFact>, i: int, threshold: real) returns (m: int)
    requires IsFirstMax(fs, i) && Qualifies(fs[i], threshold)
    ensures IsFirstMax(Qualified(fs, threshold), m) && Qualified(fs, threshold)[m] == fs[i]
  {
    hide Below, Qualifies;
    var front, last := fs[..|fs| - 1], fs[|fs| - 1];
    if i < |front| {
      m := QualifiedFirstMax(front, i, threshold);
    } else {
      var kept := Qualified(front, threshold);
      forall j | 0 <= j < |kept| ensures Below(kept[j], last) {
        assert kept[j] in front;
      }
      m := |kept|;
    }
  }

  lemma {:induction false} FiltersCommute(fs: seq<MemoryFact>, k: Key, threshold: real)
    ensures OfKey(k, Qualified(fs, threshold)) == Qualified(OfKey(k, fs), threshold)
  {
    hide Qualifies;
    if fs != [] {
      var front, last := fs[..|fs| - 1], fs[|fs| - 1];
      FiltersCommute(front, k, threshold);
      LastFiltered(Qualified(front, threshold), last, k, threshold);
      LastFiltered(OfKey(k, front), last, k, threshold);
    }
  }

  lemma LastFiltered(fs: seq<MemoryFact>, last: MemoryFact, k: Key, threshold: real)
    ensures OfKey(k, fs + [last]) == OfKey(k, fs) + if last.key == k then [last] else []
    ensures Qualified(fs + [last], threshold)
         == Qualified(fs, threshold) + if Qualifies(last, threshold) then [last] else []
    ensures fs + [] == fs
  {
    hide Qualifies;
    assert (fs + [last])[..|fs|] == fs;
  }

  /** The resolved fact of a key is the first maximum among its qualified facts, and it is the
      winner its conflict reports if and only if that winner qualifies. */
  lemma ResolvedIsWinnerIff(fs: seq<MemoryFact>, k: Key, threshold: real)
    requires k in KeysOf(fs)
    ensures PickWinner(OfKey(k, fs)).0.Some?
    ensures PickWinner(OfKey(k, Qualified(fs, threshold))).0 == PickWinner(OfKey(k, fs)).0
       <==> Qualifies(PickWinner(OfKey(k, fs)).0.value, threshold)
  {
    hide PickWinner, KeysOf, OfKey, Qualified, IsFirstMax;
    var mine := OfKey(k, fs);
    SomeOfKey(k, fs);
    var i := FirstMaxExists(mine);
    WinnerExact(mine, i);
    FiltersCommute(fs, k, threshold);
    if Qualifies(PickWinner(mine).0.value, threshold) {
      var m := QualifiedWinner(mine, i, threshold);
      WinnerExact(Qualified(mine, threshold), m);
    } else {
      WinnerMember(Qualified(mine, threshold));
    }
  }

  lemma QualifiedWinner(fs: seq<MemoryFact>, i: int, threshold: real) returns (m: int)
    requires IsFirstMax(fs, i) && Some(fs[i]) == PickWinner(fs).0 && Qualifies(PickWinner(fs).0.value, threshold)
    ensures IsFirstMax(Qualified(fs, threshold), m) && Qualified(fs, threshold)[m] == fs[i]
  {
    hide PickWinner, Qualifies;
    m := QualifiedFirstMax(fs, i, threshold);
  }

  lemma WinnerMember(fs: seq<MemoryFact>)
    ensures PickWinner(fs).0.Some? ==> PickWinner(fs).0.value in fs
  {
    if fs != [] {
      hide PickWinner;
      var i := FirstMaxExists(fs);
      WinnerExact(fs, i);
    }
  }

  /** Reordering the facts can change the winner only for one that compares equal. */
  lemma OrderMattersOnlyForTies(fs: seq<MemoryFact>, gs: seq<MemoryFact>)
    requires fs != [] && multiset(fs) == multiset(gs)
    ensures PickWinner(fs).0.Some? && PickWinner(gs).0.Some?
    ensures Tied(PickWinner(fs).0.value, PickWinner(gs).0.value)
  {
    hide PickWinner, Below;
    assert fs[0] in multiset(gs);
    var i := FirstMaxExists(fs);
    var j := FirstMaxExists(gs);
    WinnerExact(fs, i);
    WinnerExact(gs, j);
    assert fs[i] in multiset(gs) && gs[j] in multiset(fs);
    MaxAgainst(fs, i, gs[j]);
    MaxAgainst(gs, j, fs[i]);
  }

  lemma MaxAgainst(fs: seq<MemoryFact>, i: int, f: MemoryFact)
    requires IsFirstMax(fs, i) && f in fs
    ensures !Below(fs[i], f)
  {
    hide Below;
    var j :| 0 <= j < |fs| && fs[j] == f;
    BelowTransitive(f, fs[i], f);
    BelowTransitive(fs[i], f, fs[i]);
  }

  // ---- Facts of one conversation --------------------------------------------------------------

  datatype Statement = Statement(key: Key, value: Value)

  /** The facts of one extraction: every statement carries the same timestamp. */
  function FromConversation(said: seq<Statement>, now: real): (r: seq<MemoryFact>)
    ensures |r| == |said|
    ensures forall i :: 0 <= i < |said| ==> r[i] == MemoryFact(said[i].key, said[i].value, Conversation, now, 1.0)
  {
    if said == [] then []
    else
      var last := said[|said| - 1];
      FromConversation(said[..|said| - 1], now) + [MemoryFact(last.key, last.value, Conversation, now, 1.0)]
  }

  ghost predicate NotConversation(fs: seq<MemoryFact>) {
    forall f :: f in fs ==> f.source != Conversation
  }

  lemma {:induction false} OfKeyConcat(k: Key, a: seq<MemoryFact>, b: seq<MemoryFact>)
    ensures OfKey(k, a + b) == OfKey(k, a) + OfKey(k, b)
  {
    if b == [] {
      assert a + b == a;
    } else {
      var front, last := b[..|b| - 1], b[|b| - 1];
      OfKeyConcat(k, a, front);
      hide OfKey, Qualified;
      LastFiltered(a + front, last, k, 0.0);
      LastFiltered(front, last, k, 0.0);
      SplitLast(a, b);
      Associative(OfKey(k, a), OfKey(k, front), if last.key == k then [last] else []);
    }
  }

  lemma SplitLast<T>(a: seq<T>, b: seq<T>)
    requires b != []
    ensures a + b == (a + b[..|b| - 1]) + [b[|b| - 1]] && b == b[..|b| - 1] + [b[|b| - 1]]
  {
  }

  lemma Associative<T>(x: seq<T>, y: seq<T>, z: seq<T>)
    ensures (x + y) + z == x + (y + z)
  {
  }

  lemma {:induction false} FirstOfKey(k: Key, fs: seq<MemoryFact>, i: nat)
    requires i < |fs| && fs[i].key == k && forall j :: 0 <= j < i ==> fs[j].key != k
    ensures |OfKey(k, fs)| > 0 && OfKey(k, fs)[0] == fs[i]
  {
    if i < |fs| - 1 {
      FirstOfKey(k, fs[..|fs| - 1], i);
    } else {
      SomeOfKey(k, fs[..i]);
    }
  }

  /** Within one conversation the earliest statement of a key wins, whatever the other layers
      hold: the timestamps are never bumped, so a later correction is ignored. */
  lemma EarliestStatementWins(before: seq<MemoryFact>, said: seq<Statement>, after: seq<MemoryFact>,
                              now: real, k: Key, i: nat, threshold: real)
    requires NotConversation(before) && NotConversation(after)
    requires i < |said| && said[i].key == k && forall j :: 0 <= j < i ==> said[j].key != k
    ensures var fs := before + FromConversation(said, now) + after;
            var first := Some(MemoryFact(k, said[i].value, Conversation, now, 1.0));
            && PickWinner(OfKey(k, fs)).0 == first
            && PickWinner(OfKey(k, Qualified(fs, threshold))).0 == first
  {
    var middle := FromConversation(said, now);
    var fs := before + middle + after;
    hide PickWinner, Qualified, KeysOf, FromConversation;
    OfKeyConcat(k, before + middle, after);
    OfKeyConcat(k, before, middle);
    FirstOfKey(k, middle, i);
    hide OfKey;
    FirstAmongOthers(OfKey(k, before), OfKey(k, middle), OfKey(k, after), now);
    WinnerExact(OfKey(k, fs), |OfKey(k, before)|);
    SomeOfKey(k, fs);
    ResolvedIsWinnerIff(fs, k, threshold);
  }

  lemma FirstAmongOthers(a: seq<MemoryFact>, b: seq<MemoryFact>, c: seq<MemoryFact>, now: real)
    requires NotConversation(a) && NotConversation(c) && b != []
    requires forall f :: f in b ==> f.source == Conversation && f.timestamp == now && f.confidence == 1.0
    ensures IsFirstMax(a + b + c, |a|) && (a + b + c)[|a|] == b[0]
  {
    var all := a + b + c;
    forall j | 0 <= j < |all|
      ensures all[j].source != Conversation
           || (j >= |a| && all[j].timestamp == now && all[j].confidence == 1.0)
    {
      assert all[j] == if j < |a| then a[j] else if j < |a| + |b| then b[j - |a|] else c[j - |a| - |b|];
    }
    forall j | 0 <= j < |a| ensures all[j].source != Conversation {
      assert all[j] == a[j];
    }
    assert b[0] in b;
  }

  /** `reconcile`: both results, and where they part. */
  method Reconcile(fs: seq<MemoryFact>, lower: Value -> Value, threshold: real := KG_CONFIDENCE_THRESHOLD)
      returns (resolved: map<Key, MemoryFact>, conflicts: seq<MemoryConflict>)
    ensures Detected(fs, lower, KeysOf(fs), conflicts) && InKeyOrder(KeysOf(fs), conflicts)
    ensures Resolved(Qualified(fs, threshold), KeysOf(Qualified(fs, threshold)), resolved)
    ensures forall c :: c in conflicts ==>
              && c.winner.Some?
              && ((c.key in resolved && c.winner == Some(resolved[c.key])) <==> Qualifies(c.winner.value, threshold))
  {
    conflicts := DetectConflicts(fs, lower);
    resolved := ResolveAll(fs, threshold);
    forall c | c in conflicts
      ensures c.winner.Some?
      ensures (c.key in resolved && c.winner == Some(resolved[c.key])) <==> Qualifies(c.winner.value, threshold)
    {
      hide PickWinner, OfKey, KeysOf, Qualified, Qualifies;
      var i :| 0 <= i < |conflicts| && conflicts[i] == c;
      ReportedAt(conflicts, i);
      ResolvedIsWinnerIff(fs, c.key, threshold);
      SomeOfKey(c.key, Qualified(fs, threshold));
      WinnerPresent(OfKey(c.key, Qualified(fs, threshold)));
    }
  }
}
