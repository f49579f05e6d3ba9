/**
 The tokenizer's ternary search tree: a trie of separators whose alternatives at one character
 position form a binary search tree.
 */
module TernaryTree {
  import opened Wrappers

  /** What is stored with a separator: its length and its rank; the lower number is preferred. */
  datatype SearchValue = SearchValue(length: nat, priority: int)

  datatype Tree = Nil | Node(left: Tree, mid: Tree, right: Tree, c: char, value: Option<SearchValue>)

  // ----- what a tree holds, and its search order

  /** Pattern s is somewhere in the tree; looks left and right regardless of the order. */
  ghost predicate Stored(t: Tree, s: string, v: SearchValue) {
    t.Node? && s != [] &&
    (|| Stored(t.left, s, v) || Stored(t.right, s, v)
     || (s[0] == t.c && |s| == 1 && t.value == Some(v))
     || (s[0] == t.c && |s| > 1 && Stored(t.mid, s[1..], v)))
  }

  ghost predicate AllBelow(t: Tree, c: char) {
    t.Node? ==> t.c < c && AllBelow(t.left, c) && AllBelow(t.right, c)
  }

  ghost predicate AllAbove(t: Tree, c: char) {
    t.Node? ==> t.c > c && AllAbove(t.left, c) && AllAbove(t.right, c)
  }

  ghost predicate Ordered(t: Tree) {
    t.Node? ==> AllBelow(t.left, t.c) && AllAbove(t.right, t.c) && Ordered(t.left) && Ordered(t.mid) && Ordered(t.right)
  }

  lemma {:induction false} StoredBelow(t: Tree, c: char, s: string, v: SearchValue)
    requires AllBelow(t, c) && Stored(t, s, v)
    ensures s[0] < c
  {
    if Stored(t.left, s, v) {
      StoredBelow(t.left, c, s, v);
    } else if Stored(t.right, s, v) {
      StoredBelow(t.right, c, s, v);
    }
  }

  lemma {:induction false} StoredAbove(t: Tree, c: char, s: string, v: SearchValue)
    requires AllAbove(t, c) && Stored(t, s, v)
    ensures s[0] > c
  {
    if Stored(t.left, s, v) {
      StoredAbove(t.left, c, s, v);
    } else if Stored(t.right, s, v) {
      StoredAbove(t.right, c, s, v);
    }
  }

  /** In an ordered tree a pattern can only be where its first character leads. */
  lemma StoredWhere(t: Tree, s: string, v: SearchValue)
    requires t.Node? && Ordered(t) && s != []
    ensures s[0] < t.c ==> (Stored(t, s, v) <==> Stored(t.left, s, v))
    ensures s[0] > t.c ==> (Stored(t, s, v) <==> Stored(t.right, s, v))
    ensures s[0] == t.c && |s| == 1 ==> (Stored(t, s, v) <==> t.value == Some(v))
    ensures s[0] == t.c && |s| > 1 ==> (Stored(t, s, v) <==> Stored(t.mid, s[1..], v))
  {
    if Stored(t.left, s, v) { StoredBelow(t.left, t.c, s, v); }
    if Stored(t.right, s, v) { StoredAbove(t.right, t.c, s, v); }
  }

  // ----- put

  /** Nothing, when the pattern is there already. */
  function Put(t: Tree, s: string, v: SearchValue): Option<Tree>
    requires s != []
    decreases |s|, 1, t
  {
    match t
    case Nil => PutHere(Node(Nil, Nil, Nil, s[0], None), s, v)
    case Node(left, mid, right, c, value) =>
      if s[0] < c then
        var link := Put(left, s, v);
        if link.Some? then Some(t.(left := link.value)) else None
      else if s[0] > c then
        var link := Put(right, s, v);
        if link.Some? then Some(t.(right := link.value)) else None
      else PutHere(t, s, v)
  }

  /** The node's character is the first one of the pattern. */
  function PutHere(t: Tree, s: string, v: SearchValue): Option<Tree>
    requires s != [] && t.Node? && t.c == s[0]
    decreases |s|, 0, t
  {
    if |s| > 1 then
      var link := Put(t.mid, s[1..], v);
      if link.Some? then Some(t.(mid := link.value)) else None
    else if t.value.None? then Some(t.(value := Some(v)))
    else None
  }

  lemma {:induction false} PutBelow(t: Tree, s: string, v: SearchValue, c: char)
    requires s != [] && AllBelow(t, c) && s[0] < c
    ensures Put(t, s, v).Some? ==> AllBelow(Put(t, s, v).value, c)
    decreases t
  {
    if t.Node? && s[0] < t.c {
      PutBelow(t.left, s, v, c);
    } else if t.Node? && s[0] > t.c {
      PutBelow(t.right, s, v, c);
    }
  }

  lemma {:induction false} PutAbove(t: Tree, s: string, v: SearchValue, c: char)
    requires s != [] && AllAbove(t, c) && s[0] > c
    ensures Put(t, s, v).Some? ==> AllAbove(Put(t, s, v).value, c)
    decreases t
  {
    if t.Node? && s[0] < t.c {
      PutAbove(t.left, s, v, c);
    } else if t.Node? && s[0] > t.c {
      PutAbove(t.right, s, v, c);
    }
  }

  /** Inserting keeps the search order. */
  lemma {:induction false} PutKeepsOrder(t: Tree, s: string, v: SearchValue)
    requires s != [] && Ordered(t)
    ensures Put(t, s, v).Some? ==> Ordered(Put(t, s, v).value)
    decreases |s|, t
  {
    if t.Node? && s[0] < t.c {
      PutKeepsOrder(t.left, s, v);
      PutBelow(t.left, s, v, t.c);
    } else if t.Node? && s[0] > t.c {
      PutKeepsOrder(t.right, s, v);
      PutAbove(t.right, s, v, t.c);
    } else if |s| > 1 {
      PutKeepsOrder(if t.Node? then t.mid else Nil, s[1..], v);
    }
  }

  ghost predicate Has(t: Tree, s: string) {
    exists v :: Stored(t, s, v)
  }

  lemma HasWhere(t: Tree, s: string)
    requires t.Node? && Ordered(t) && s != []
    ensures s[0] < t.c ==> (Has(t, s) <==> Has(t.left, s))
    ensures s[0] > t.c ==> (Has(t, s) <==> Has(t.right, s))
    ensures s[0] == t.c && |s| == 1 ==> (Has(t, s) <==> t.value.Some?)
    ensures s[0] == t.c && |s| > 1 ==> (Has(t, s) <==> Has(t.mid, s[1..]))
  {
    if v :| Stored(t, s, v) { StoredWhere(t, s, v); }
    if v :| Stored(t.left, s, v) { StoredWhere(t, s, v); }
    if v :| Stored(t.right, s, v) { StoredWhere(t, s, v); }
    if |s| > 1 {
      if v :| Stored(t.mid, s[1..], v) { StoredWhere(t, s, v); }
    }
    if t.value.Some? { StoredWhere(t, s, t.value.value); }
  }

  /** Inserting fails exactly on patterns that are there already. */
  lemma {:induction false} PutFailsOnDuplicates(t: Tree, s: string, v: SearchValue)
    requires s != [] && Ordered(t)
    ensures Put(t, s, v).None? <==> Has(t, s)
    decreases |s|, t
  {
    if t.Nil? {
      if |s| > 1 { PutFailsOnDuplicates(Nil, s[1..], v); }
    } else {
      HasWhere(t, s);
      hide Has, Stored;
      if s[0] < t.c {
        PutFailsOnDuplicates(t.left, s, v);
      } else if s[0] > t.c {
        PutFailsOnDuplicates(t.right, s, v);
      } else if |s| > 1 {
        PutFailsOnDuplicates(t.mid, s[1..], v);
      }
    }
  }

  /** Inserting adds exactly one pattern. */
  lemma {:induction false} PutAddsOne(t: Tree, s: string, v: SearchValue, q: string, w: SearchValue)
    requires s != [] && Ordered(t) && Put(t, s, v).Some?
    ensures Stored(Put(t, s, v).value, q, w) <==> Stored(t, q, w) || (q == s && w == v)
    decreases |s|, t
  {
    var t' := Put(t, s, v).value;
    PutKeepsOrder(t, s, v);
    if q != [] {
      StoredWhere(t', q, w);
      if t.Node? { StoredWhere(t, q, w); }
      var node := if t.Node? then t else Node(Nil, Nil, Nil, s[0], None);
      if s[0] < node.c {
        if q[0] < node.c { PutAddsOne(node.left, s, v, q, w); }
      } else if s[0] > node.c {
        if q[0] > node.c { PutAddsOne(node.right, s, v, q, w); }
      } else if |s| > 1 {
        if q[0] == node.c && |q| > 1 {
          PutAddsOne(node.mid, s[1..], v, q[1..], w);
          assert q == [q[0]] + q[1..] && s == [s[0]] + s[1..];
        }
      } else {
        assert |q| == 1 && q[0] == s[0] ==> q == s;
      }
    }
  }

  // ----- get

  /** The better of what was found before and what this node holds; a tie keeps the earlier one. */
  function UpdateState(t: Tree, best: Option<SearchValue>): Option<SearchValue>
    requires t.Node?
  {
    if t.value.Some? && (best.None? || t.value.value.priority < best.value.priority) then t.value else best
  }

  function GetFrom(t: Tree, s: string, best: Option<SearchValue>): Option<SearchValue>
    requires s != []
  {
    match t
    case Nil => best
    case Node(left, mid, right, c, value) =>
      if s[0] < c then GetFrom(left, s, best)
      else if s[0] > c then GetFrom(right, s, best)
      else if |s| > 1 then GetFrom(mid, s[1..], UpdateState(t, best))
      else UpdateState(t, best)
  }

  /** v is stored under the first n characters of s. */
  ghost predicate PrefixStored(t: Tree, s: string, n: nat, v: SearchValue) {
    0 < n <= |s| && Stored(t, s[..n], v)
  }

  /** r is the first of the best among what was found before and the patterns that are prefixes of s. */
  ghost predicate BestPrefix(t: Tree, s: string, best: Option<SearchValue>, r: Option<SearchValue>) {
    && (r.None? <==> best.None? && forall n: nat, v :: !PrefixStored(t, s, n, v))
    && (r.Some? ==> r == best || exists n: nat :: FirstBest(t, s, n, best, r.value))
    && (r.Some? && best.Some? ==> r.value.priority <= best.value.priority)
    && (r.Some? ==> forall m: nat, w :: PrefixStored(t, s, m, w) ==> r.value.priority <= w.priority)
  }

  /** The value of the prefix of length n, better than all shorter ones and than what was found before. */
  ghost predicate FirstBest(t: Tree, s: string, n: nat, best: Option<SearchValue>, v: SearchValue) {
    && PrefixStored(t, s, n, v)
    && (best.Some? ==> v.priority < best.value.priority)
    && (forall m: nat, w :: m < n && PrefixStored(t, s, m, w) ==> v.priority < w.priority)
  }

  lemma PrefixWhere(t: Tree, s: string, n: nat, v: SearchValue)
    requires t.Node? && Ordered(t) && s != []
    ensures s[0] < t.c ==> (PrefixStored(t, s, n, v) <==> PrefixStored(t.left, s, n, v))
    ensures s[0] > t.c ==> (PrefixStored(t, s, n, v) <==> PrefixStored(t.right, s, n, v))
    ensures s[0] == t.c && n == 1 ==> (PrefixStored(t, s, n, v) <==> t.value == Some(v))
    ensures s[0] == t.c && n > 1 ==> (PrefixStored(t, s, n, v) <==> PrefixStored(t.mid, s[1..], n - 1, v))
  {
    if 0 < n <= |s| {
      StoredWhere(t, s[..n], v);
      if n > 1 { assert s[..n][1..] == s[1..][..n - 1]; }
    }
  }

  lemma BestSame(t: Tree, u: Tree, s: string, best: Option<SearchValue>, r: Option<SearchValue>)
    requires BestPrefix(u, s, best, r) && forall n: nat, v :: PrefixStored(t, s, n, v) <==> PrefixStored(u, s, n, v)
    ensures BestPrefix(t, s, best, r)
  {
    hide PrefixStored;
    if r.Some? && r != best {
      var n: nat :| FirstBest(u, s, n, best, r.value);
      assert FirstBest(t, s, n, best, r.value);
    }
  }

  /** The node's own value is that of the first character; longer prefixes are below the middle link. */
  lemma BestDown(t: Tree, s: string, best: Option<SearchValue>, r: Option<SearchValue>)
    requires t.Node? && Ordered(t) && |s| > 1 && s[0] == t.c && BestPrefix(t.mid, s[1..], UpdateState(t, best), r)
    ensures BestPrefix(t, s, best, r)
  {
    hide Ordered, PrefixStored;
    var u := UpdateState(t, best);
    forall n: nat, v
      ensures n == 1 ==> (PrefixStored(t, s, n, v) <==> t.value == Some(v))
      ensures n > 1 ==> (PrefixStored(t, s, n, v) <==> PrefixStored(t.mid, s[1..], n - 1, v))
      ensures n == 0 ==> !PrefixStored(t, s, n, v)
    {
      PrefixDown(t, s, n, v);
    }
    if r.Some? {
      forall m: nat, w | PrefixStored(t, s, m, w)
        ensures r.value.priority <= w.priority
      {
        if m > 1 { assert PrefixStored(t.mid, s[1..], m - 1, w); }
      }
      if r != u {
        var n: nat :| FirstBest(t.mid, s[1..], n, u, r.value);
        PrefixDown(t, s, n + 1, r.value);
        assert n > 0 by { assert PrefixStored(t.mid, s[1..], n, r.value); NoEmptyPrefix(t.mid, s[1..], r.value); }
        forall m: nat, w | m < n + 1 && PrefixStored(t, s, m, w)
          ensures r.value.priority < w.priority
        {
          if m > 1 { assert PrefixStored(t.mid, s[1..], m - 1, w); }
        }
        assert FirstBest(t, s, n + 1, best, r.value);
      } else if u != best {
        assert FirstBest(t, s, 1, best, r.value);
      }
    } else {
      forall n: nat, v
        ensures !PrefixStored(t, s, n, v)
      {
        if n > 1 { assert !PrefixStored(t.mid, s[1..], n - 1, v); }
      }
    }
  }

  lemma NoEmptyPrefix(t: Tree, s: string, v: SearchValue)
    ensures !PrefixStored(t, s, 0, v)
  {
  }

  lemma PrefixDown(t: Tree, s: string, n: nat, v: SearchValue)
    requires t.Node? && Ordered(t) && s != [] && s[0] == t.c
    ensures n == 1 ==> (PrefixStored(t, s, n, v) <==> t.value == Some(v))
    ensures n > 1 ==> (PrefixStored(t, s, n, v) <==> PrefixStored(t.mid, s[1..], n - 1, v))
    ensures n == 0 ==> !PrefixStored(t, s, n, v)
    ensures n > |s| ==> !PrefixStored(t, s, n, v)
  {
    PrefixWhere(t, s, n, v);
  }

  lemma BestHere(t: Tree, s: string, best: Option<SearchValue>)
    requires t.Node? && Ordered(t) && |s| == 1 && s[0] == t.c
    ensures BestPrefix(t, s, best, UpdateState(t, best))
  {
    hide Ordered, PrefixStored;
    forall n: nat, v
      ensures PrefixStored(t, s, n, v) <==> n == 1 && t.value == Some(v)
    {
      PrefixDown(t, s, n, v);
    }
    if t.value.Some? {
      assert PrefixStored(t, s, 1, t.value.value);
      assert UpdateState(t, best) != best ==> FirstBest(t, s, 1, best, t.value.value);
    }
  }

  /** Searching finds the best-ranked value among all stored patterns that are prefixes of the text. */
  lemma {:induction false} GetIsBest(t: Tree, s: string, best: Option<SearchValue>)
    requires Ordered(t) && s != []
    ensures BestPrefix(t, s, best, GetFrom(t, s, best))
    decreases t
  {
    var r := GetFrom(t, s, best);
    if t.Nil? {
    } else if s[0] < t.c {
      GetIsBest(t.left, s, best);
      forall n: nat, v ensures PrefixStored(t, s, n, v) <==> PrefixStored(t.left, s, n, v) { PrefixWhere(t, s, n, v); }
      BestSame(t, t.left, s, best, r);
    } else if s[0] > t.c {
      GetIsBest(t.right, s, best);
      forall n: nat, v ensures PrefixStored(t, s, n, v) <==> PrefixStored(t.right, s, n, v) { PrefixWhere(t, s, n, v); }
      BestSame(t, t.right, s, best, r);
    } else if |s| > 1 {
      GetIsBest(t.mid, s[1..], UpdateState(t, best));
      BestDown(t, s, best, r);
    } else {
      BestHere(t, s, best);
    }
  }

  // ----- the tree as the tokenizer uses it

  class TernarySearchTree {
    var root: Tree

    constructor ()
      ensures root == Nil && Ordered(root)
    {
      root := Nil;
    }

    /** The best stored prefix of the text, if there is one. */
    method Get(str: string) returns (r: Option<SearchValue>)
      requires Ordered(root)
      ensures r.None? <==> forall n: nat, v :: !PrefixStored(root, str, n, v)
      ensures r.Some? ==> exists n: nat :: FirstBest(root, str, n, None, r.value)
      ensures r.Some? ==> forall n: nat, v :: PrefixStored(root, str, n, v) ==> r.value.priority <= v.priority
      ensures r == if str == [] then None else GetFrom(root, str, None)
    {
      if |str| == 0 {
        return None;
      }
      GetIsBest(root, str, None);
      r := Search(root, str, 0, None);
      assert str[0..] == str;
    }

    /** Descends from t at the given depth of the text; `found` is the best value so far. */
    static method Search(t: Tree, str: string, depth: nat, found: Option<SearchValue>) returns (r: Option<SearchValue>)
      requires depth < |str|
      ensures r == GetFrom(t, str[depth..], found)
      decreases t
    {
      r := found;
      if t.Nil? {
        return;
      }
      var c := str[depth];
      if c < t.c {
        r := Search(t.left, str, depth, found);
      } else if c > t.c {
        r := Search(t.right, str, depth, found);
      } else if depth < |str| - 1 {
        r := UpdateState(t, found);
        if t.mid.Node? {
          r := Search(t.mid, str, depth + 1, r);
        }
      } else {
        r := UpdateState(t, found);
      }
    }

    /** Fails, changing nothing, on the empty pattern and on patterns that are there already. */
    method TryPut(str: string, v: SearchValue) returns (ok: bool)
      requires Ordered(root)
      modifies this
      ensures Ordered(root)
      ensures !ok <==> str == [] || Has(old(root), str)
      ensures !ok ==> root == old(root)
      ensures ok ==> forall q, w :: Stored(root, q, w) <==> Stored(old(root), q, w) || (q == str && w == v)
    {
      if |str| < 1 {
        return false;
      }
      PutFailsOnDuplicates(root, str, v);
      PutKeepsOrder(root, str, v);
      var newRoot := Put(root, str, v);
      ok := newRoot.Some?;
      if ok {
        forall q, w ensures Stored(newRoot.value, q, w) <==> Stored(root, q, w) || (q == str && w == v) {
          PutAddsOne(root, str, v, q, w);
        }
        root := newRoot.value;
      }
    }
  }
}
