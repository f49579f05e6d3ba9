/** Cutting a decoded string at separators, of which the earlier ones in the list are preferred. */
module SeparatorTokenizer {
  import opened Wrappers
  import opened TernaryTree

  // ----- the separators

  /** Separator q of the first n, with its length and position as value. */
  ghost predicate Listed(separators: seq<string>, n: nat, q: string, v: SearchValue) {
    n <= |separators| && 0 <= v.priority < n && separators[v.priority] == q && v.length == |q|
  }

  ghost predicate Acceptable(separators: seq<string>, n: nat) {
    && n <= |separators|
    && (forall i :: 0 <= i < n ==> separators[i] != [])
    && (forall i, j :: 0 <= i < j < n ==> separators[i] != separators[j])
  }

  /** The tree holds exactly the separators. */
  ghost predicate HoldsAll(t: Tree, separators: seq<string>, n: nat) {
    Ordered(t) && forall q, v :: Stored(t, q, v) <==> Listed(separators, n, q, v)
  }

  /** Inserts the separators in order; empty and repeated ones are refused. */
  method BuildTree(separators: seq<string>) returns (ok: bool, tst: TernarySearchTree)
    ensures ok <==> Acceptable(separators, |separators|)
    ensures ok ==> HoldsAll(tst.root, separators, |separators|)
  {
    tst := new TernarySearchTree();
    ok := false;
    NothingStored(separators);
    for i := 0 to |separators|
      invariant Acceptable(separators, i) && HoldsAll(tst.root, separators, i)
      invariant fresh(tst)
    {
      if separators[i] == [] {
        return;
      }
      var v := SearchValue(|separators[i]|, i);
      ghost var before := tst.root;
      var result := tst.TryPut(separators[i], v);
      if !result {
        AlreadyListed(before, separators, i);
        return;
      }
      OneMoreListed(before, tst.root, separators, i);
    }
    ok := true;
  }

  lemma NothingStored(separators: seq<string>)
    ensures HoldsAll(Nil, separators, 0)
  {
  }

  lemma AlreadyListed(t: Tree, separators: seq<string>, i: nat)
    requires HoldsAll(t, separators, i) && i < |separators| && Has(t, separators[i])
    ensures !Acceptable(separators, |separators|)
  {
    var v :| Stored(t, separators[i], v);
    assert Listed(separators, i, separators[i], v);
    assert separators[v.priority] == separators[i];
  }

  lemma OneMoreListed(t: Tree, u: Tree, separators: seq<string>, i: nat)
    requires HoldsAll(t, separators, i) && i < |separators| && separators[i] != [] && Acceptable(separators, i)
    requires !Has(t, separators[i]) && Ordered(u)
    requires forall q, v ::
               Stored(u, q, v) <==> Stored(t, q, v) || (q == separators[i] && v == SearchValue(|separators[i]|, i))
    ensures HoldsAll(u, separators, i + 1) && Acceptable(separators, i + 1)
  {
    hide Stored, Ordered;
    forall q, v
      ensures Stored(u, q, v) <==> Listed(separators, i + 1, q, v)
    {
    }
    forall j | 0 <= j < i
      ensures separators[j] != separators[i]
    {
      assert Listed(separators, i, separators[j], SearchValue(|separators[j]|, j));
    }
  }

  // ----- which separator is at an offset

  predicate Occurs(sep: string, s: string, o: nat) {
    o + |sep| <= |s| && s[o..o + |sep|] == sep
  }

  /** The first separator, from number i on, that occurs at offset o. */
  function FirstAt(separators: seq<string>, s: string, o: nat, i: nat): (r: Option<nat>)
    requires i <= |separators|
    ensures r.Some? ==> i <= r.value < |separators| && Occurs(separators[r.value], s, o)
    ensures r.Some? ==> forall j :: i <= j < r.value ==> !Occurs(separators[j], s, o)
    ensures r.None? ==> forall j :: i <= j < |separators| ==> !Occurs(separators[j], s, o)
    decreases |separators| - i
  {
    if i == |separators| then None
    else if Occurs(separators[i], s, o) then Some(i)
    else FirstAt(separators, s, o, i + 1)
  }

  lemma StoredPrefix(t: Tree, separators: seq<string>, s: string, o: nat, n: nat, v: SearchValue)
    requires HoldsAll(t, separators, |separators|) && Acceptable(separators, |separators|) && o <= |s|
    ensures PrefixStored(t, s[o..], n, v) <==>
            && 0 <= v.priority < |separators| && n == v.length == |separators[v.priority]|
            && Occurs(separators[v.priority], s, o)
  {
    if 0 < n <= |s[o..]| {
      assert s[o..][..n] == s[o..o + n];
      assert Stored(t, s[o..][..n], v) <==> Listed(separators, |separators|, s[o..][..n], v);
    }
  }

  /** The tree finds the first separator of the list that occurs at the offset. */
  lemma GetFindsFirst(t: Tree, separators: seq<string>, s: string, o: nat)
    requires HoldsAll(t, separators, |separators|) && Acceptable(separators, |separators|) && o < |s|
    ensures var j := FirstAt(separators, s, o, 0);
            GetFrom(t, s[o..], None) == if j.Some? then Some(SearchValue(|separators[j.value]|, j.value)) else None
  {
    GetIsBest(t, s[o..], None);
    var r, j := GetFrom(t, s[o..], None), FirstAt(separators, s, o, 0);
    hide HoldsAll, PrefixStored, FirstAt, GetFrom, Acceptable, Occurs;
    if j.Some? {
      StoredPrefix(t, separators, s, o, |separators[j.value]|, SearchValue(|separators[j.value]|, j.value));
    }
    if r.Some? {
      var n: nat :| FirstBest(t, s[o..], n, None, r.value);
      StoredPrefix(t, separators, s, o, n, r.value);
    }
  }

  // ----- matches

  datatype Match = Match(priority: nat, offset: nat, size: nat)

  function End(m: Match): nat {
    m.offset + m.size
  }

  /** The order of the match set; overlapping matches are equivalent. */
  predicate Less(a: Match, b: Match) {
    End(a) <= b.offset
  }

  ghost predicate Sorted(ms: seq<Match>) {
    forall i, j :: 0 <= i < j < |ms| ==> Less(ms[i], ms[j])
  }

  /** Inserts in order unless an equivalent match is there, and then says where. */
  method SetInsert(ms: seq<Match>, m: Match) returns (more: seq<Match>, at: nat, inserted: bool)
    ensures inserted ==> at <= |ms| && more == ms[..at] + [m] + ms[at..]
    ensures inserted ==> (forall i :: 0 <= i < at ==> Less(ms[i], m)) && (at < |ms| ==> Less(m, ms[at]))
    ensures !inserted ==> more == ms && at < |ms| && !Less(ms[at], m) && !Less(m, ms[at])
    ensures !inserted ==> forall i :: 0 <= i < at ==> Less(ms[i], m)
  {
    at, more, inserted := 0, ms, false;
    while at < |ms| && Less(ms[at], m)
      invariant at <= |ms| && forall i :: 0 <= i < at ==> Less(ms[i], m)
    {
      at := at + 1;
    }
    if at < |ms| && !Less(m, ms[at]) {
      return;
    }
    more, inserted := ms[..at] + [m] + ms[at..], true;
  }

  /** What one offset does to the matches: append, replace the last one, or nothing. */
  function Consider(ms: seq<Match>, m: Match): seq<Match> {
    if ms == [] || End(ms[|ms| - 1]) <= m.offset then ms + [m]
    else if m.priority < ms[|ms| - 1].priority then ms[..|ms| - 1] + [m]
    else ms
  }

  function MatchAt(separators: seq<string>, s: string, o: nat): Option<Match> {
    var j := FirstAt(separators, s, o, 0);
    if j.Some? then Some(Match(j.value, o, |separators[j.value]|)) else None
  }

  /** The matches when all offsets before o have been looked at. */
  function ScanTo(separators: seq<string>, s: string, o: nat): seq<Match> {
    if o == 0 then []
    else
      var m := MatchAt(separators, s, o - 1);
      if m.Some? then Consider(ScanTo(separators, s, o - 1), m.value) else ScanTo(separators, s, o - 1)
  }

  /** Sorted, apart, each one the separator found at its offset, all of them starting before o. */
  ghost predicate MatchesOk(separators: seq<string>, s: string, o: nat, ms: seq<Match>) {
    && Sorted(ms)
    && (forall i :: 0 <= i < |ms| ==> MatchAt(separators, s, ms[i].offset) == Some(ms[i]))
    && (forall i :: 0 <= i < |ms| ==> ms[i].offset < o && ms[i].size > 0 && End(ms[i]) <= |s|)
  }

  lemma MatchAtFacts(separators: seq<string>, s: string, o: nat)
    requires Acceptable(separators, |separators|)
    ensures var m := MatchAt(separators, s, o);
            m.Some? ==> m.value.offset == o && m.value.size > 0 && End(m.value) <= |s|
                        && m.value.priority < |separators| && s[o..End(m.value)] == separators[m.value.priority]
  {
  }

  lemma {:induction false} ScanIsOk(separators: seq<string>, s: string, o: nat)
    requires Acceptable(separators, |separators|)
    ensures MatchesOk(separators, s, o, ScanTo(separators, s, o))
  {
    hide MatchAt, Acceptable, Sorted, Consider, ScanTo;
    if o == 0 {
      NothingScanned(separators, s);
      EmptyIsSorted();
    } else {
      ScanIsOk(separators, s, o - 1);
      MatchAtFacts(separators, s, o - 1);
      ScanStep(separators, s, o);
      var ms, m := ScanTo(separators, s, o - 1), MatchAt(separators, s, o - 1);
      if m.Some? {
        ConsiderKeepsSorted(ms, m.value);
        ConsiderMembers(ms, m.value);
      }
    }
  }

  lemma EmptyIsSorted()
    ensures Sorted([])
  {
  }

  lemma ConsiderMembers(ms: seq<Match>, m: Match)
    ensures forall i ::
              0 <= i < |Consider(ms, m)| ==> Consider(ms, m)[i] == m || (i < |ms| && Consider(ms, m)[i] == ms[i])
  {
  }

  lemma ConsiderKeepsSorted(ms: seq<Match>, m: Match)
    requires Sorted(ms) && forall i :: 0 <= i < |ms| ==> ms[i].offset < m.offset && ms[i].size > 0
    ensures Sorted(Consider(ms, m))
  {
    var n := |ms| - 1;
    assert forall i :: 0 <= i < n ==> Less(ms[i], ms[n]);
  }

  /** The scan; the loop over conflicts runs at most once for each offset. */
  method Scan(tst: TernarySearchTree, ghost separators: seq<string>, s: string) returns (matches: seq<Match>)
    requires HoldsAll(tst.root, separators, |separators|) && Acceptable(separators, |separators|)
    ensures matches == ScanTo(separators, s, |s|) && MatchesOk(separators, s, |s|, matches)
  {
    hide HoldsAll, Acceptable, Sorted, FirstAt;
    matches := [];
    for offset := 0 to |s|
      invariant matches == ScanTo(separators, s, offset)
    {
      HoldsOrdered(tst.root, separators);
      var val := tst.Get(s[offset..]);
      GetFindsFirst(tst.root, separators, s, offset);
      ScanIsOk(separators, s, offset);
      if val.Some? {
        var m := Match(val.value.priority, offset, val.value.length);
        MatchAtFacts(separators, s, offset);
        matches := Resolve(matches, m);
      }
    }
    ScanIsOk(separators, s, |s|);
  }

  lemma HoldsOrdered(t: Tree, separators: seq<string>)
    requires HoldsAll(t, separators, |separators|)
    ensures Ordered(t)
  {
  }

  /** Inserts a match, throwing out what it conflicts with and is preferred to. */
  method Resolve(ms: seq<Match>, m: Match) returns (more: seq<Match>)
    requires Sorted(ms) && m.size > 0 && forall i :: 0 <= i < |ms| ==> ms[i].offset < m.offset && ms[i].size > 0
    ensures more == Consider(ms, m)
  {
    var at, inserted;
    more, at, inserted := SetInsert(ms, m);
    OnlyLastConflicts(ms, m);
    ghost var rounds := 0;
    while !inserted && m.priority < more[at].priority
      invariant rounds <= 1
      invariant !inserted ==> rounds == 0 && more == ms && at == |ms| - 1 && at >= 0 && m.offset < End(ms[at])
      invariant inserted ==> more == Consider(ms, m)
      decreases !inserted
    {
      rounds := rounds + 1;
      more := more[..at] + more[at + 1..];
      assert more == ms[..|ms| - 1];
      more, at, inserted := SetInsert(more, m);
    }
  }

  /** Of sorted matches that all start earlier, only the last can overlap. */
  lemma OnlyLastConflicts(ms: seq<Match>, m: Match)
    requires Sorted(ms) && forall i :: 0 <= i < |ms| ==> ms[i].offset < m.offset && ms[i].size > 0
    ensures forall i :: 0 <= i < |ms| - 1 ==> Less(ms[i], m)
  {
    var n := |ms| - 1;
    assert forall i :: 0 <= i < n ==> Less(ms[i], ms[n]);
  }

  // ----- which matches are kept

  /** Two matches that share a character. */
  predicate Overlap(a: Match, b: Match) {
    !Less(a, b) && !Less(b, a)
  }

  /** What is still there although it overlaps the new match is at least as preferred. */
  lemma ConsiderKept(ms: seq<Match>, m: Match, i: nat)
    requires Sorted(ms) && (forall k :: 0 <= k < |ms| ==> ms[k].offset < m.offset && ms[k].size > 0)
    requires i < |Consider(ms, m)| && Consider(ms, m)[i] != m && m.offset < End(Consider(ms, m)[i])
    ensures Consider(ms, m)[i].priority <= m.priority
  {
    OnlyLastConflicts(ms, m);
  }

  lemma ScanStep(separators: seq<string>, s: string, n: nat)
    requires n > 0
    ensures var ms, m := ScanTo(separators, s, n - 1), MatchAt(separators, s, n - 1);
            ScanTo(separators, s, n) == if m.Some? then Consider(ms, m.value) else ms
  {
  }

  /** The scan's matches, one by one. */
  lemma ScanMatches(separators: seq<string>, s: string, n: nat)
    requires Acceptable(separators, |separators|)
    ensures var ms := ScanTo(separators, s, n);
            Sorted(ms) && forall i :: 0 <= i < |ms| ==> ms[i].offset < n && ms[i].size > 0
  {
    ScanIsOk(separators, s, n);
  }

  /** A kept match is never beaten by a later one: whatever starts inside it is not preferred to it. */
  lemma {:induction false} KeptIsNotBeaten(separators: seq<string>, s: string, n: nat, i: nat, o: nat)
    requires Acceptable(separators, |separators|) && i < |ScanTo(separators, s, n)|
    requires var m := ScanTo(separators, s, n)[i]; m.offset < o < End(m) && o < n && MatchAt(separators, s, o).Some?
    ensures ScanTo(separators, s, n)[i].priority <= MatchAt(separators, s, o).value.priority
  {
    hide MatchAt, Acceptable, Sorted, ScanTo, Consider;
    ScanStep(separators, s, n);
    ScanMatches(separators, s, n - 1);
    MatchAtFacts(separators, s, n - 1);
    var ms, last := ScanTo(separators, s, n - 1), MatchAt(separators, s, n - 1);
    if last.Some? { ConsiderMembers(ms, last.value); }
    if o < n - 1 {
      KeptIsNotBeaten(separators, s, n - 1, i, o);
    } else {
      ConsiderKept(ms, last.value, i);
    }
  }

  /** m is preferred to every match it overlaps, the earlier one of equals first. */
  ghost predicate Unchallenged(separators: seq<string>, s: string, m: Match) {
    forall o: nat ::
      o < |s| && o != m.offset && MatchAt(separators, s, o).Some? && Overlap(MatchAt(separators, s, o).value, m) ==>
        var other := MatchAt(separators, s, o).value;
        if o < m.offset then m.priority < other.priority else m.priority <= other.priority
  }

  lemma UnchallengedBy(separators: seq<string>, s: string, m: Match, other: Match)
    requires Unchallenged(separators, s, m) && MatchAt(separators, s, other.offset) == Some(other) && other.offset < |s|
    requires other.offset != m.offset && Overlap(other, m)
    ensures if other.offset < m.offset then m.priority < other.priority else m.priority <= other.priority
  {
  }

  /** A match that is preferred to all it overlaps is kept. */
  lemma {:induction false} UnchallengedIsKept(separators: seq<string>, s: string, n: nat, m: Match)
    requires Acceptable(separators, |separators|) && n <= |s| && MatchAt(separators, s, m.offset) == Some(m)
             && m.offset < n
    requires Unchallenged(separators, s, m)
    ensures m in ScanTo(separators, s, n)
  {
    hide MatchAt, Acceptable, Sorted, ScanTo, Unchallenged;
    ScanStep(separators, s, n);
    ScanMatches(separators, s, n - 1);
    ScanIsOk(separators, s, n - 1);
    MatchAtFacts(separators, s, n - 1);
    MatchAtFacts(separators, s, m.offset);
    var ms, last := ScanTo(separators, s, n - 1), MatchAt(separators, s, n - 1);
    if m.offset == n - 1 {
      if ms != [] && End(ms[|ms| - 1]) > m.offset { UnchallengedBy(separators, s, m, ms[|ms| - 1]); }
      assert Consider(ms, m)[|Consider(ms, m)| - 1] == m;
    } else {
      UnchallengedIsKept(separators, s, n - 1, m);
      if last.Some? {
        var k :| 0 <= k < |ms| && ms[k] == m;
        if Overlap(last.value, m) { UnchallengedBy(separators, s, m, last.value); }
        LastOne(ms, last.value, k);
      }
    }
  }

  lemma LastOne(ms: seq<Match>, m: Match, k: nat)
    requires Sorted(ms) && k < |ms| && ms[k].offset < m.offset && m.size > 0
    requires Overlap(m, ms[k]) ==> ms[k].priority <= m.priority
    requires forall i :: 0 <= i < |ms| ==> ms[i].size > 0
    ensures ms[k] in Consider(ms, m)
  {
    assert Consider(ms, m)[k] == ms[k];
  }

  // ----- when no further match could be kept

  /** Match x shares a character with a kept match, possibly itself. */
  ghost predicate CoveredBy(ms: seq<Match>, x: Match) {
    exists k :: 0 <= k < |ms| && Overlap(ms[k], x)
  }

  /** Every match that starts before n is kept or overlaps a kept one. */
  ghost predicate Maximal(separators: seq<string>, s: string, n: nat) {
    forall o: nat :: o < n && MatchAt(separators, s, o).Some? ==>
      CoveredBy(ScanTo(separators, s, n), MatchAt(separators, s, o).value)
  }

  /** The new match m throws out the last one. */
  predicate Replaces(ms: seq<Match>, m: Match) {
    ms != [] && m.offset < End(ms[|ms| - 1]) && m.priority < ms[|ms| - 1].priority
  }

  /** Match x overlaps the last match only, and ends before m starts. */
  predicate Uncovers(ms: seq<Match>, m: Match, x: Match) {
    && ms != [] && Overlap(x, ms[|ms| - 1]) && End(x) <= m.offset
    && (|ms| >= 2 ==> End(ms[|ms| - 2]) <= x.offset)
  }

  /** At offset o a match is thrown out that kept away one which the new match does not reach. */
  ghost predicate LosesAt(separators: seq<string>, s: string, o: nat) {
    var ms, m := ScanTo(separators, s, o), MatchAt(separators, s, o);
    && m.Some? && Replaces(ms, m.value)
    && exists p: nat ::
         p < o && MatchAt(separators, s, p).Some? && Uncovers(ms, m.value, MatchAt(separators, s, p).value)
  }

  lemma ConsiderCovers(ms: seq<Match>, m: Match)
    requires m.size > 0 && forall k :: 0 <= k < |ms| ==> ms[k].offset < m.offset && ms[k].size > 0
    ensures CoveredBy(Consider(ms, m), m)
  {
    if ms != [] && Consider(ms, m) == ms {
      assert Overlap(ms[|ms| - 1], m);
    } else {
      assert Overlap(Consider(ms, m)[|Consider(ms, m)| - 1], m);
    }
  }

  /** A match is uncovered exactly by such a step. */
  lemma ConsiderUncovers(ms: seq<Match>, m: Match, x: Match)
    requires Sorted(ms) && (forall k :: 0 <= k < |ms| ==> ms[k].offset < m.offset && ms[k].size > 0)
    requires m.size > 0 && x.size > 0 && x.offset < m.offset && CoveredBy(ms, x)
    ensures CoveredBy(Consider(ms, m), x) <==> !(Replaces(ms, m) && Uncovers(ms, m, x))
  {
    var n, more := |ms| - 1, Consider(ms, m);
    var k :| 0 <= k < |ms| && Overlap(ms[k], x);
    assert forall i :: 0 <= i < n ==> Less(ms[i], ms[n]);
    if !Replaces(ms, m) {
      assert more[k] == ms[k];
    } else {
      assert forall i :: 0 <= i < n ==> more[i] == ms[i];
      assert more[n] == m;
      if Uncovers(ms, m, x) {
        assert forall i :: 0 <= i < n - 1 ==> Less(ms[i], ms[n - 1]);
      } else if m.offset < End(x) {
        assert Overlap(more[n], x);
      } else {
        OnlyByLast(ms, x, k);
      }
    }
  }

  /** What overlaps a sorted match and not the last but one overlaps the last one, after the last but one. */
  lemma OnlyByLast(ms: seq<Match>, x: Match, k: nat)
    requires Sorted(ms) && k < |ms| && Overlap(ms[k], x) && x.size > 0 && forall i :: 0 <= i < |ms| ==> ms[i].size > 0
    requires !(Overlap(x, ms[|ms| - 1]) && (|ms| >= 2 ==> End(ms[|ms| - 2]) <= x.offset))
    ensures exists i :: 0 <= i < |ms| - 1 && Overlap(ms[i], x)
  {
    var n := |ms| - 1;
    if k == n {
      assert Less(ms[n - 1], ms[n]);
      assert Overlap(ms[n - 1], x);
    }
  }

  lemma {:induction false} StaysUncovered(separators: seq<string>, s: string, n: nat, n': nat, x: Match)
    requires Acceptable(separators, |separators|) && n <= n' && End(x) <= n && !CoveredBy(ScanTo(separators, s, n), x)
    ensures !CoveredBy(ScanTo(separators, s, n'), x)
  {
    hide MatchAt, Acceptable, Sorted, ScanTo, Consider;
    if n < n' {
      StaysUncovered(separators, s, n, n' - 1, x);
      ScanStep(separators, s, n');
      MatchAtFacts(separators, s, n' - 1);
      var ms, m := ScanTo(separators, s, n' - 1), MatchAt(separators, s, n' - 1);
      if m.Some? { ConsiderMembers(ms, m.value); }
    }
  }

  lemma LosingStep(separators: seq<string>, s: string, o: nat, n: nat)
    requires Acceptable(separators, |separators|) && LosesAt(separators, s, o) && o < n
    ensures !Maximal(separators, s, n)
  {
    hide MatchAt, Acceptable, Sorted, ScanTo, Consider, Replaces, Uncovers, CoveredBy;
    var ms, m := ScanTo(separators, s, o), MatchAt(separators, s, o).value;
    var p: nat :| p < o && MatchAt(separators, s, p).Some? && Uncovers(ms, m, MatchAt(separators, s, p).value);
    var x := MatchAt(separators, s, p).value;
    MatchAtFacts(separators, s, p);
    MatchAtFacts(separators, s, o);
    ScanMatches(separators, s, o);
    ScanStep(separators, s, o + 1);
    UncoversFacts(ms, m, x);
    ConsiderUncovers(ms, m, x);
    StaysUncovered(separators, s, o + 1, n, x);
  }

  lemma UncoversFacts(ms: seq<Match>, m: Match, x: Match)
    requires Uncovers(ms, m, x)
    ensures CoveredBy(ms, x) && End(x) <= m.offset
  {
    assert Overlap(ms[|ms| - 1], x);
  }

  lemma {:induction false} NoLosingStep(separators: seq<string>, s: string, n: nat)
    requires Acceptable(separators, |separators|) && forall o: nat :: o < n ==> !LosesAt(separators, s, o)
    ensures Maximal(separators, s, n)
  {
    hide MatchAt, Acceptable, Sorted, ScanTo, Consider, Replaces, Uncovers, CoveredBy;
    if n > 0 {
      NoLosingStep(separators, s, n - 1);
      ScanStep(separators, s, n);
      ScanMatches(separators, s, n - 1);
      MatchAtFacts(separators, s, n - 1);
      var ms, m := ScanTo(separators, s, n - 1), MatchAt(separators, s, n - 1);
      assert !LosesAt(separators, s, n - 1);
      forall o: nat | o < n && MatchAt(separators, s, o).Some?
        ensures CoveredBy(ScanTo(separators, s, n), MatchAt(separators, s, o).value)
      {
        MatchAtFacts(separators, s, o);
        if m.Some? {
          if o == n - 1 {
            ConsiderCovers(ms, m.value);
          } else {
            ConsiderUncovers(ms, m.value, MatchAt(separators, s, o).value);
          }
        }
      }
    }
  }

  /** The kept matches are maximal exactly if no step of the scan loses a match. */
  lemma MaximalExactlyIf(separators: seq<string>, s: string, n: nat)
    requires Acceptable(separators, |separators|)
    ensures Maximal(separators, s, n) <==> forall o: nat :: o < n ==> !LosesAt(separators, s, o)
  {
    hide Acceptable, Maximal, LosesAt;
    if o: nat :| o < n && LosesAt(separators, s, o) {
      LosingStep(separators, s, o, n);
    } else {
      NoLosingStep(separators, s, n);
    }
  }

  /** One of the two strings starts with the other. */
  predicate Compatible(a: string, b: string) {
    a <= b || b <= a
  }

  /** No separator can start inside one that is listed after it. */
  ghost predicate NoneInsideLater(separators: seq<string>) {
    forall i, j, d :: 0 <= j < i < |separators| && 0 < d < |separators[i]| ==>
      !Compatible(separators[j], separators[i][d..])
  }

  lemma BothOccur(a: string, b: string, s: string, o: nat, d: nat)
    requires Occurs(a, s, o) && Occurs(b, s, o + d) && 0 < d < |a|
    ensures Compatible(b, a[d..])
  {
    var t := s[o + d..];
    assert a[d..] <= t by { assert forall i :: 0 <= i < |a| - d ==> a[d..][i] == s[o..o + |a|][d + i] == t[i]; }
    assert b <= t by { assert forall i :: 0 <= i < |b| ==> b[i] == s[o + d..o + d + |b|][i] == t[i]; }
    if |b| <= |a| - d {
      assert b == t[..|b|] == a[d..][..|b|];
    } else {
      assert a[d..] == t[..|a| - d] == b[..|a| - d];
    }
  }

  /** With such separators every text is cut at as many places as possible. */
  lemma MaximalForList(separators: seq<string>, s: string, n: nat)
    requires Acceptable(separators, |separators|) && NoneInsideLater(separators)
    ensures Maximal(separators, s, n)
  {
    hide Maximal, ScanTo, Acceptable, Compatible, Sorted;
    forall o: nat | o < n
      ensures !LosesAt(separators, s, o)
    {
      var ms, m := ScanTo(separators, s, o), MatchAt(separators, s, o);
      if m.Some? && Replaces(ms, m.value) {
        ScanIsOk(separators, s, o);
        var last := ms[|ms| - 1];
        BothOccur(separators[last.priority], separators[m.value.priority], s, last.offset, o - last.offset);
        assert false;
      }
    }
    MaximalExactlyIf(separators, s, n);
  }

  function LostSeparators(): seq<string> { ["c", "abc", "b"] }
  function LostText(): string { "abcx" }

  /** The kept matches need not be as many as possible: one that lost to a match thrown out later stays lost. */
  lemma LostMatchesStayLost()
    ensures var separators, s := LostSeparators(), LostText();
            && Acceptable(separators, |separators|) && |s| == 4 && ScanTo(separators, s, 4) == [Match(0, 2, 1)]
            && MatchAt(separators, s, 1) == Some(Match(2, 1, 1)) && !Maximal(separators, s, 4)
  {
    LostMatchesFound();
    hide MatchAt, ScanTo, LostSeparators, LostText, Acceptable;
    var separators, s := LostSeparators(), LostText();
    NothingScanned(separators, s);
    ScanStep(separators, s, 1);
    assert ScanTo(separators, s, 1) == [Match(1, 0, 3)];
    ScanStep(separators, s, 2);
    ScanStep(separators, s, 3);
    assert ScanTo(separators, s, 3) == [Match(0, 2, 1)];
    ScanStep(separators, s, 4);
  }

  lemma NothingScanned(separators: seq<string>, s: string)
    ensures ScanTo(separators, s, 0) == []
  {
  }

  lemma LostMatchesFound()
    ensures var separators, s := LostSeparators(), LostText();
            && Acceptable(separators, |separators|) && |s| == 4
            && MatchAt(separators, s, 0) == Some(Match(1, 0, 3)) && MatchAt(separators, s, 1) == Some(Match(2, 1, 1))
            && MatchAt(separators, s, 2) == Some(Match(0, 2, 1)) && MatchAt(separators, s, 3) == None
  {
    var separators, s := ["c", "abc", "b"], "abcx";
    assert s[0..1] == "a" && s[0..3] == "abc" && s[1..2] == "b" && s[1..4] == "bcx" && s[2..3] == "c" && s[3..4] == "x";
    FirstAtIs(separators, s, 0, Some(1));
    FirstAtIs(separators, s, 1, Some(2));
    FirstAtIs(separators, s, 2, Some(0));
    FirstAtIs(separators, s, 3, None);
    hide FirstAt;
  }

  /** The first separator that occurs is the one before which none does. */
  lemma FirstAtIs(separators: seq<string>, s: string, o: nat, r: Option<nat>)
    requires r.Some? ==> r.value < |separators| && Occurs(separators[r.value], s, o)
    requires r.Some? ==> forall j :: 0 <= j < r.value ==> !Occurs(separators[j], s, o)
    requires r.None? ==> forall j :: 0 <= j < |separators| ==> !Occurs(separators[j], s, o)
    ensures FirstAt(separators, s, o, 0) == r
  {
    hide FirstAt, Occurs;
    var f := FirstAt(separators, s, o, 0);
    if f.Some? && r.Some? {
      assert !(f.value < r.value) && !(r.value < f.value);
    }
  }

  // ----- tokens

  /** Gaps and matches in turn from position `from` on, and the rest of the string. */
  function Pieces(s: string, ms: seq<Match>, from: nat): seq<string> {
    if ms == [] then [if from <= |s| then s[from..] else []]
    else if from <= ms[0].offset && End(ms[0]) <= |s|
    then [s[from..ms[0].offset], s[ms[0].offset..End(ms[0])]] + Pieces(s, ms[1..], End(ms[0]))
    else []
  }

  function Concat(parts: seq<string>): string {
    if parts == [] then [] else parts[0] + Concat(parts[1..])
  }

  ghost predicate Cuts(s: string, ms: seq<Match>, from: nat) {
    Sorted(ms) && from <= |s| && (forall i :: 0 <= i < |ms| ==> from <= ms[i].offset && End(ms[i]) <= |s|)
  }

  lemma CutsTail(s: string, ms: seq<Match>, from: nat)
    requires Cuts(s, ms, from) && ms != []
    ensures Cuts(s, ms[1..], End(ms[0]))
  {
    forall i | 0 <= i < |ms[1..]|
      ensures End(ms[0]) <= ms[1..][i].offset
    {
      assert Less(ms[0], ms[i + 1]);
    }
  }

  /** Gaps and matches in order make up the string. */
  lemma {:induction false} PiecesRebuild(s: string, ms: seq<Match>, from: nat)
    requires Cuts(s, ms, from)
    ensures Concat(Pieces(s, ms, from)) == s[from..]
    decreases |ms|
  {
    hide Sorted, Cuts, Concat;
    CutsFacts(s, ms, from);
    if ms == [] {
      ConcatCons(s[from..], []);
      assert [s[from..]] + [] == [s[from..]];
    } else {
      CutsTail(s, ms, from);
      var a, b := ms[0].offset, End(ms[0]);
      PiecesRebuild(s, ms[1..], b);
      var rest := Pieces(s, ms[1..], b);
      hide Pieces;
      ConcatCons(s[a..b], rest);
      ConcatCons(s[from..a], [s[a..b]] + rest);
      assert [s[from..a], s[a..b]] + rest == [s[from..a]] + ([s[a..b]] + rest);
      ThreeParts(s, from, a, b);
      PiecesStep(s, ms, from);
    }
  }

  lemma PiecesStep(s: string, ms: seq<Match>, from: nat)
    requires ms != [] && from <= ms[0].offset && End(ms[0]) <= |s|
    ensures Pieces(s, ms, from) == [s[from..ms[0].offset], s[ms[0].offset..End(ms[0])]] + Pieces(s, ms[1..], End(ms[0]))
  {
  }

  lemma ThreeParts(s: string, from: nat, a: nat, b: nat)
    requires from <= a <= b <= |s|
    ensures s[from..] == s[from..a] + (s[a..b] + s[b..])
  {
  }

  lemma CutsFacts(s: string, ms: seq<Match>, from: nat)
    requires Cuts(s, ms, from)
    ensures from <= |s| && (ms != [] ==> from <= ms[0].offset <= End(ms[0]) <= |s|)
  {
  }

  lemma ConcatCons(x: string, rest: seq<string>)
    ensures Concat([x] + rest) == x + Concat(rest) && Concat([]) == []
  {
    assert ([x] + rest)[1..] == rest;
  }

  /** The gaps that are long enough; the rest after the last match is kept whatever its length. */
  function Tokens(s: string, ms: seq<Match>, from: nat, mincharnum: nat): seq<string> {
    if ms == [] then if from < |s| then [s[from..]] else []
    else if from <= ms[0].offset && End(ms[0]) <= |s|
    then (if ms[0].offset - from >= mincharnum && ms[0].offset > from then [s[from..ms[0].offset]] else [])
         + Tokens(s, ms[1..], End(ms[0]), mincharnum)
    else []
  }

  /** Length of what follows the last match. */
  function TailLength(s: string, ms: seq<Match>, from: nat): nat {
    var start := if ms == [] then from else End(ms[|ms| - 1]);
    if start < |s| then |s| - start else 0
  }

  /** Every token that ends at a match has at least the minimum length, and none is empty. */
  lemma {:induction false} TokensAreLong(s: string, ms: seq<Match>, from: nat, mincharnum: nat)
    requires Cuts(s, ms, from)
    ensures var tokens, tail := Tokens(s, ms, from, mincharnum), TailLength(s, ms, from);
            && (tail > 0 ==> |tokens| > 0 && |tokens[|tokens| - 1]| == tail)
            && (forall i :: 0 <= i < |tokens| - (if tail > 0 then 1 else 0) ==> |tokens[i]| >= mincharnum)
            && (forall i :: 0 <= i < |tokens| ==> |tokens[i]| > 0)
    decreases |ms|
  {
    if ms != [] {
      CutsTail(s, ms, from);
      TokensAreLong(s, ms[1..], End(ms[0]), mincharnum);
      assert TailLength(s, ms, from) == TailLength(s, ms[1..], End(ms[0]));
    }
  }

  /** Every token is a gap: the tokens are a subsequence of the pieces that are not matches. */
  lemma {:induction false} TokensAreGaps(s: string, ms: seq<Match>, from: nat, mincharnum: nat, k: nat)
    requires Cuts(s, ms, from) && k < |Tokens(s, ms, from, mincharnum)|
    ensures exists i ::
              0 <= i < |Pieces(s, ms, from)| && i % 2 == 0
              && Pieces(s, ms, from)[i] == Tokens(s, ms, from, mincharnum)[k]
    decreases |ms|
  {
    if ms == [] {
      assert Pieces(s, ms, from)[0] == Tokens(s, ms, from, mincharnum)[k];
    } else {
      CutsTail(s, ms, from);
      var first := ms[0].offset - from >= mincharnum && ms[0].offset > from;
      var rest := Pieces(s, ms[1..], End(ms[0]));
      if first && k == 0 {
        assert Pieces(s, ms, from)[0] == Tokens(s, ms, from, mincharnum)[k];
      } else {
        var j := if first then k - 1 else k;
        TokensAreGaps(s, ms[1..], End(ms[0]), mincharnum, j);
        var i :| 0 <= i < |rest| && i % 2 == 0 && rest[i] == Tokens(s, ms[1..], End(ms[0]), mincharnum)[j];
        assert Pieces(s, ms, from)[i + 2] == Tokens(s, ms, from, mincharnum)[k];
      }
    }
  }

  // ----- which pieces become tokens

  /** A piece between matches, or after the last one, that is long enough; the last one needs only not be empty. */
  predicate Kept(pieces: seq<string>, p: nat, mincharnum: nat) {
    p < |pieces| && p % 2 == 0 && |pieces[p]| > 0 && (p == |pieces| - 1 || |pieces[p]| >= mincharnum)
  }

  ghost predicate Increasing(at: seq<nat>) {
    forall i, j :: 0 <= i < j < |at| ==> at[i] < at[j]
  }

  /** `at` lists, in order and without omission, the positions of the pieces that are kept, and the tokens are those. */
  ghost predicate ExactlyKept(pieces: seq<string>, mincharnum: nat, tokens: seq<string>, at: seq<nat>) {
    && |at| == |tokens| && Increasing(at)
    && (forall i :: 0 <= i < |at| ==> Kept(pieces, at[i], mincharnum) && tokens[i] == pieces[at[i]])
    && (forall p: nat :: Kept(pieces, p, mincharnum) ==> p in at)
  }

  lemma {:induction false} PiecesAreOdd(s: string, ms: seq<Match>, from: nat)
    requires Cuts(s, ms, from)
    ensures |Pieces(s, ms, from)| == 2 * |ms| + 1
    decreases |ms|
  {
    if ms != [] {
      CutsTail(s, ms, from);
      PiecesAreOdd(s, ms[1..], End(ms[0]));
    }
  }

  /** Two pieces more in front: what is kept behind them moves by two. */
  lemma KeptShifts(front: seq<string>, rest: seq<string>, mincharnum: nat, p: nat)
    requires |front| == 2 && |rest| > 0
    ensures Kept(front + rest, p + 2, mincharnum) <==> Kept(rest, p, mincharnum)
    ensures Kept(front + rest, 0, mincharnum) <==> |front[0]| > 0 && |front[0]| >= mincharnum
    ensures !Kept(front + rest, 1, mincharnum)
  {
    var pieces := front + rest;
    assert p < |rest| ==> pieces[p + 2] == rest[p];
    assert (p + 2) % 2 == p % 2;
  }

  /** The positions two further on, behind position 0 if the first piece is kept. */
  ghost function Shift(first: bool, at: seq<nat>): (r: seq<nat>)
    ensures |r| == |at| + if first then 1 else 0
    ensures forall i :: 0 <= i < |at| ==> r[if first then i + 1 else i] == at[i] + 2
    ensures first ==> r[0] == 0
    ensures Increasing(at) ==> Increasing(r)
  {
    (if first then [0] else []) + seq(|at|, i requires 0 <= i < |at| => at[i] + 2)
  }

  lemma ShiftKept(front: seq<string>, rest: seq<string>, mincharnum: nat, tokens: seq<string>, at: seq<nat>,
                  first: bool)
    requires |front| == 2 && |rest| > 0 && ExactlyKept(rest, mincharnum, tokens, at)
    requires first <==> |front[0]| > 0 && |front[0]| >= mincharnum
    ensures ExactlyKept(front + rest, mincharnum, (if first then [front[0]] else []) + tokens, Shift(first, at))
  {
    var pieces, at', tokens' := front + rest, Shift(first, at), (if first then [front[0]] else []) + tokens;
    assert |at| == |tokens| && Increasing(at);
    hide *;
    forall i | 0 <= i < |at'|
      ensures Kept(pieces, at'[i], mincharnum) && tokens'[i] == pieces[at'[i]]
    {
      ShiftedIsKept(front, rest, mincharnum, tokens, at, first, i);
    }
    forall p: nat | Kept(pieces, p, mincharnum)
      ensures p in at'
    {
      NothingLost(front, rest, mincharnum, tokens, at, first, p);
    }
    IsExactlyKept(pieces, mincharnum, tokens', at');
  }

  lemma IsExactlyKept(pieces: seq<string>, mincharnum: nat, tokens: seq<string>, at: seq<nat>)
    requires |at| == |tokens| && Increasing(at)
    requires forall i :: 0 <= i < |at| ==> Kept(pieces, at[i], mincharnum) && tokens[i] == pieces[at[i]]
    requires forall p: nat :: Kept(pieces, p, mincharnum) ==> p in at
    ensures ExactlyKept(pieces, mincharnum, tokens, at)
  {
    hide Kept, Increasing;
  }

  lemma ShiftedIsKept(front: seq<string>, rest: seq<string>, mincharnum: nat, tokens: seq<string>, at: seq<nat>,
                      first: bool, i: nat)
    requires |front| == 2 && |rest| > 0 && ExactlyKept(rest, mincharnum, tokens, at) && |at| == |tokens|
    requires first <==> |front[0]| > 0 && |front[0]| >= mincharnum
    requires i < |Shift(first, at)|
    ensures Shift(first, at)[i] < |front + rest| && Kept(front + rest, Shift(first, at)[i], mincharnum)
    ensures ((if first then [front[0]] else []) + tokens)[i] == (front + rest)[Shift(first, at)[i]]
  {
    hide *;
    if first && i == 0 {
      KeptShifts(front, rest, mincharnum, 0);
    } else {
      var k := if first then i - 1 else i;
      KeptAt(rest, mincharnum, tokens, at, k);
      KeptShifts(front, rest, mincharnum, at[k]);
      assert Shift(first, at)[if first then k + 1 else k] == at[k] + 2;
    }
  }

  lemma KeptAt(pieces: seq<string>, mincharnum: nat, tokens: seq<string>, at: seq<nat>, k: nat)
    requires ExactlyKept(pieces, mincharnum, tokens, at) && k < |at|
    ensures at[k] < |pieces| && Kept(pieces, at[k], mincharnum) && tokens[k] == pieces[at[k]]
  {
  }

  lemma NothingLost(front: seq<string>, rest: seq<string>, mincharnum: nat, tokens: seq<string>, at: seq<nat>,
                    first: bool, p: nat)
    requires |front| == 2 && |rest| > 0 && ExactlyKept(rest, mincharnum, tokens, at)
    requires first <==> |front[0]| > 0 && |front[0]| >= mincharnum
    requires Kept(front + rest, p, mincharnum)
    ensures p in Shift(first, at)
  {
    hide Kept, Shift, Increasing;
    KeptShifts(front, rest, mincharnum, 0);
    if p > 0 {
      KeptShifts(front, rest, mincharnum, p - 2);
      var k :| 0 <= k < |at| && at[k] == p - 2;
      assert Shift(first, at)[if first then k + 1 else k] == p;
    }
  }

  /** The tokens are, in order and with multiplicity, exactly the pieces that are kept. */
  lemma {:induction false} TokensAreExact(s: string, ms: seq<Match>, from: nat, mincharnum: nat) returns (at: seq<nat>)
    requires Cuts(s, ms, from)
    ensures ExactlyKept(Pieces(s, ms, from), mincharnum, Tokens(s, ms, from, mincharnum), at)
    decreases |ms|
  {
    if ms == [] {
      at := if from < |s| then [0] else [];
    } else {
      CutsTail(s, ms, from);
      PiecesStep(s, ms, from);
      PiecesAreOdd(s, ms[1..], End(ms[0]));
      var rest := TokensAreExact(s, ms[1..], End(ms[0]), mincharnum);
      var front := [s[from..ms[0].offset], s[ms[0].offset..End(ms[0])]];
      var first := |front[0]| > 0 && |front[0]| >= mincharnum;
      hide ExactlyKept, Shift, Cuts;
      ShiftKept(front, Pieces(s, ms[1..], End(ms[0])), mincharnum, Tokens(s, ms[1..], End(ms[0]), mincharnum), rest,
                first);
      at := Shift(first, rest);
    }
  }

  /** The tokens between the matches. */
  method CutAt(s: string, matches: seq<Match>, mincharnum: nat) returns (tokens: seq<string>)
    requires Cuts(s, matches, 0)
    ensures tokens == Tokens(s, matches, 0, mincharnum)
    ensures exists at :: ExactlyKept(Pieces(s, matches, 0), mincharnum, tokens, at)
  {
    tokens := [];
    var offset: nat := 0;
    assert matches[0..] == matches && tokens + Tokens(s, matches, 0, mincharnum) == Tokens(s, matches, 0, mincharnum);
    for k := 0 to |matches|
      invariant Cuts(s, matches[k..], offset)
      invariant tokens + Tokens(s, matches[k..], offset, mincharnum) == Tokens(s, matches, 0, mincharnum)
    {
      hide Sorted;
      var m := matches[k];
      CutsTail(s, matches[k..], offset);
      assert matches[k..][1..] == matches[k + 1..] && matches[k..][0] == m;
      var sz := m.offset - offset;
      ghost var rest := Tokens(s, matches[k + 1..], End(m), mincharnum);
      if sz > 0 && sz >= mincharnum {
        assert tokens + ([s[offset..m.offset]] + rest) == tokens + [s[offset..m.offset]] + rest;
        tokens := tokens + [s[offset..offset + sz]];
      } else {
        assert [] + rest == rest;
      }
      offset := End(m);
    }
    if offset < |s| {
      tokens := tokens + [s[offset..]];
    }
    ghost var at := TokensAreExact(s, matches, 0, mincharnum);
  }

  lemma OkMatchesCut(separators: seq<string>, s: string, ms: seq<Match>)
    requires MatchesOk(separators, s, |s|, ms)
    ensures Cuts(s, ms, 0)
  {
  }

  /** Scans one string and cuts it. */
  method SeparatorTokenize(tst: TernarySearchTree, ghost separators: seq<string>, s: string, mincharnum: nat)
    returns (tokens: seq<string>, matches: seq<Match>)
    requires HoldsAll(tst.root, separators, |separators|) && Acceptable(separators, |separators|)
    ensures MatchesOk(separators, s, |s|, matches) && matches == ScanTo(separators, s, |s|)
    ensures tokens == Tokens(s, matches, 0, mincharnum) && Concat(Pieces(s, matches, 0)) == s
    ensures exists at :: ExactlyKept(Pieces(s, matches, 0), mincharnum, tokens, at)
    ensures forall i ::
              0 <= i < |tokens| - (if TailLength(s, matches, 0) > 0 then 1 else 0) ==> |tokens[i]| >= mincharnum
  {
    hide HoldsAll, Acceptable, MatchesOk, Cuts, Tokens, Pieces, Concat, ScanTo, ExactlyKept;
    matches := Scan(tst, separators, s);
    OkMatchesCut(separators, s, matches);
    PiecesRebuild(s, matches, 0);
    assert s[0..] == s;
    TokensAreLong(s, matches, 0, mincharnum);
    tokens := CutAt(s, matches, mincharnum);
  }
}
