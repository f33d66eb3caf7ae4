/**
 * The n-ary Huffman-style code assigner of tableimage/__init__.py:10-81:
 * the code-tree node `_Node` and the merge loop `_encoding`.
 *
 * Nodes are values here. `_Node.prepend_prefix` changes the prefix of a node
 * object and of its descendants in place; `PrependPrefix` returns the node
 * with those prefixes changed instead.
 */
module Encoder {
  import opened Results

  /** `_Node`: a leaf holds a key, an internal node its children; both carry a prefix. */
  datatype Node<K> = Leaf(prefix: string, key: K) | Branch(prefix: string, children: seq<Node<K>>)

  /** A queue element: a node and its weight. */
  type Entry<K> = (Node<K>, nat)

  // ---------------------------------------------------------------------------
  // Prefix propagation (__init__.py:20-34)

  /** `prepend_prefix`: put `p` in front of this node's prefix and of all its descendants'. */
  function PrependPrefix<K>(n: Node<K>, p: string): Node<K>
    decreases n
  {
    match n
    case Leaf(q, k) => Leaf(p + q, k)
    case Branch(q, cs) => Branch(p + q, SubPrependPrefix(cs, p))
  }

  /** `_sub_prepend_prefix`: tell every child to prepend `p`. */
  function SubPrependPrefix<K>(cs: seq<Node<K>>, p: string): (r: seq<Node<K>>)
    decreases cs
  {
    if cs == [] then [] else [PrependPrefix(cs[0], p)] + SubPrependPrefix(cs[1..], p)
  }

  /** The prefixes of a node and all its descendants, in pre-order. */
  function Prefixes<K>(n: Node<K>): seq<string>
    decreases n
  {
    match n
    case Leaf(q, _) => [q]
    case Branch(q, cs) => [q] + PrefixesOf(cs)
  }

  function PrefixesOf<K>(cs: seq<Node<K>>): seq<string>
    decreases cs
  {
    if cs == [] then [] else Prefixes(cs[0]) + PrefixesOf(cs[1..])
  }

  /** Every string of `s` with `p` in front. */
  function PrependEach(s: seq<string>, p: string): (r: seq<string>)
    ensures |r| == |s| && forall i :: 0 <= i < |s| ==> r[i] == p + s[i]
  {
    if s == [] then [] else [p + s[0]] + PrependEach(s[1..], p)
  }

  lemma PrependEachAppend(a: seq<string>, b: seq<string>, p: string)
    ensures PrependEach(a + b, p) == PrependEach(a, p) + PrependEach(b, p)
  {
  }

  /** The key-to-code map a node stands for: each leaf's key mapped to the leaf's prefix. */
  function Codes<K>(n: Node<K>): map<K, string>
    decreases n
  {
    match n
    case Leaf(q, k) => map[k := q]
    case Branch(_, cs) => CodesOf(cs)
  }

  function CodesOf<K>(cs: seq<Node<K>>): map<K, string>
    decreases cs
  {
    if cs == [] then map[] else Codes(cs[0]) + CodesOf(cs[1..])
  }

  /** Every code of `m` with `p` in front. */
  function PrependCodes<K>(m: map<K, string>, p: string): (r: map<K, string>)
    ensures r.Keys == m.Keys && forall k :: k in m ==> r[k] == p + m[k]
  {
    map k | k in m :: p + m[k]
  }

  lemma PrependCodesUnion<K>(a: map<K, string>, b: map<K, string>, p: string)
    ensures PrependCodes(a + b, p) == PrependCodes(a, p) + PrependCodes(b, p)
  {
  }

  /**
   * `prepend_prefix(p)` puts `p` in front of the prefix of the node and of
   * every descendant, in the same tree shape, and so in front of every code
   * the node stands for.
   */
  lemma {:induction false} PrependPrefixSpec<K>(n: Node<K>, p: string)
    ensures Prefixes(PrependPrefix(n, p)) == PrependEach(Prefixes(n), p)
    ensures Codes(PrependPrefix(n, p)) == PrependCodes(Codes(n), p)
    decreases n
  {
    match n
    case Leaf(q, k) =>
    case Branch(q, cs) =>
      SubPrependPrefixSpec(cs, p);
  }

  lemma {:induction false} SubPrependPrefixSpec<K>(cs: seq<Node<K>>, p: string)
    ensures PrefixesOf(SubPrependPrefix(cs, p)) == PrependEach(PrefixesOf(cs), p)
    ensures CodesOf(SubPrependPrefix(cs, p)) == PrependCodes(CodesOf(cs), p)
    decreases cs
  {
    if cs != [] {
      PrependPrefixSpec(cs[0], p);
      SubPrependPrefixSpec(cs[1..], p);
      PrependEachAppend(Prefixes(cs[0]), PrefixesOf(cs[1..]), p);
      PrependCodesUnion(Codes(cs[0]), CodesOf(cs[1..]), p);
    }
  }

  // ---------------------------------------------------------------------------
  // Prefix-free codes

  /** No code of `m` is a prefix of the code of another key (`<=` on sequences is "is a prefix of"). */
  ghost predicate PrefixFree<K>(m: map<K, string>) {
    forall k1, k2 :: k1 in m && k2 in m && k1 != k2 ==> !(m[k1] <= m[k2])
  }

  ghost predicate CodeOver(c: string, alphabet: string) {
    forall i :: 0 <= i < |c| ==> c[i] in alphabet
  }

  lemma FirstSymbolsDiffer(a: string, b: string)
    requires a != [] && b != [] && a[0] != b[0]
    ensures !(a <= b) && !(b <= a)
  {
  }

  lemma ConsPrefix(c: char, a: string, b: string)
    ensures ([c] + a <= [c] + b) <==> (a <= b)
  {
    if [c] + a <= [c] + b {
      assert ([c] + b)[..|a| + 1] == [c] + a;
      assert b[..|a|] == ([c] + b)[1..|a| + 1];
    }
    if a <= b {
      assert ([c] + b)[..|a| + 1] == [c] + b[..|a|];
    }
  }

  // ---------------------------------------------------------------------------
  // The alphabet (__init__.py:52)

  /**
   * The alphabet with duplicate symbols removed, first occurrences kept. The
   * source goes through a Python `set`, whose order is unspecified; nothing
   * here depends on which symbol is labelled to which node.
   */
  function Dedup(s: string): (r: string)
    ensures forall c :: c in r <==> c in s
    ensures forall i, j :: 0 <= i < j < |r| ==> r[i] != r[j]
  {
    if s == [] then []
    else
      var r := Dedup(s[..|s| - 1]);
      assert s == s[..|s| - 1] + [s[|s| - 1]];
      if s[|s| - 1] in r then r else r + [s[|s| - 1]]
  }

  // ---------------------------------------------------------------------------
  // The queue

  function TotalWeight<K>(q: seq<Entry<K>>): nat
  {
    if q == [] then 0 else q[0].1 + TotalWeight(q[1..])
  }

  /** All keys below the nodes of a queue. */
  function QueueKeys<K>(q: seq<Entry<K>>): set<K>
  {
    if q == [] then {} else Codes(q[0].0).Keys + QueueKeys(q[1..])
  }

  /** All codes below the nodes of a queue. */
  function QueueCodes<K>(q: seq<Entry<K>>): map<K, string>
  {
    if q == [] then map[] else Codes(q[0].0) + QueueCodes(q[1..])
  }

  /** No key lies below two nodes of the queue. */
  ghost predicate Disjoint<K>(q: seq<Entry<K>>) {
    q == [] || (Codes(q[0].0).Keys !! QueueKeys(q[1..]) && Disjoint(q[1..]))
  }

  /** The nodes of a queue, weights dropped (the children of a new internal node, line 75). */
  function NodesOf<K>(q: seq<Entry<K>>): (r: seq<Node<K>>)
    ensures |r| == |q|
  {
    if q == [] then [] else [q[0].0] + NodesOf(q[1..])
  }

  lemma {:induction false} CodesOfNodes<K>(q: seq<Entry<K>>)
    ensures CodesOf(NodesOf(q)) == QueueCodes(q)
    ensures QueueCodes(q).Keys == QueueKeys(q)
  {
    if q != [] {
      CodesOfNodes(q[1..]);
    }
  }

  lemma {:induction false} QueueAppend<K>(a: seq<Entry<K>>, b: seq<Entry<K>>)
    ensures QueueKeys(a + b) == QueueKeys(a) + QueueKeys(b)
    ensures TotalWeight(a + b) == TotalWeight(a) + TotalWeight(b)
    ensures Disjoint(a + b) <==> Disjoint(a) && Disjoint(b) && QueueKeys(a) !! QueueKeys(b)
  {
    if a != [] {
      assert (a + b)[1..] == a[1..] + b;
      QueueAppend(a[1..], b);
    } else {
      assert a + b == b;
    }
  }

  // ---------------------------------------------------------------------------
  // Sorting by weight, heaviest first (line 61)

  ghost predicate SortedByWeight<K>(q: seq<Entry<K>>) {
    forall i, j :: 0 <= i < j < |q| ==> q[i].1 >= q[j].1
  }

  /** Insert `e` in front of the first entry that is not heavier than it. */
  function InsertByWeight<K>(e: Entry<K>, s: seq<Entry<K>>): seq<Entry<K>>
  {
    if s == [] || e.1 >= s[0].1 then [e] + s else [s[0]] + InsertByWeight(e, s[1..])
  }

  /**
   * `queue.sort(key=weight, reverse=True)`. Entries are inserted from the
   * back, each in front of the first entry that is not heavier, so entries
   * of equal weight keep their order, as in Python's stable sort.
   */
  function SortByWeight<K>(q: seq<Entry<K>>): seq<Entry<K>>
  {
    if q == [] then [] else InsertByWeight(q[0], SortByWeight(q[1..]))
  }

  /** Inserting adds exactly `e`. */
  lemma {:induction false} InsertPerm<K>(e: Entry<K>, s: seq<Entry<K>>)
    ensures multiset(InsertByWeight(e, s)) == multiset([e] + s)
  {
    if s != [] && e.1 < s[0].1 {
      InsertPerm(e, s[1..]);
      assert s == [s[0]] + s[1..];
    }
  }

  /** Inserting an entry no heavier than `w` into entries no heavier than `w` gives entries no heavier than `w`. */
  lemma {:induction false} InsertBounded<K>(e: Entry<K>, s: seq<Entry<K>>, w: nat)
    requires e.1 <= w && forall i :: 0 <= i < |s| ==> s[i].1 <= w
    ensures forall j :: 0 <= j < |InsertByWeight(e, s)| ==> InsertByWeight(e, s)[j].1 <= w
  {
    if s != [] && e.1 < s[0].1 {
      assert forall i :: 0 <= i < |s| - 1 ==> s[1..][i] == s[i + 1];
      InsertBounded(e, s[1..], w);
    }
  }

  /** Inserting into a sorted queue keeps it sorted. */
  lemma {:induction false} InsertSorted<K>(e: Entry<K>, s: seq<Entry<K>>)
    requires SortedByWeight(s)
    ensures SortedByWeight(InsertByWeight(e, s))
  {
    if s != [] && e.1 < s[0].1 {
      var t := InsertByWeight(e, s[1..]);
      assert forall i :: 0 <= i < |s| - 1 ==> s[1..][i] == s[i + 1];
      InsertSorted(e, s[1..]);
      InsertBounded(e, s[1..], s[0].1);
      assert InsertByWeight(e, s) == [s[0]] + t;
    }
  }

  /** The sort returns the same entries (a permutation), heaviest first. */
  lemma {:induction false} SortIsSorted<K>(q: seq<Entry<K>>)
    ensures multiset(SortByWeight(q)) == multiset(q) && |SortByWeight(q)| == |q|
    ensures SortedByWeight(SortByWeight(q))
  {
    if q != [] {
      SortIsSorted(q[1..]);
      InsertPerm(q[0], SortByWeight(q[1..]));
      InsertSorted(q[0], SortByWeight(q[1..]));
      assert q == [q[0]] + q[1..];
    }
    assert |multiset(SortByWeight(q))| == |multiset(q)|;
  }

  /** Where `InsertByWeight` puts `e`: behind every entry heavier than it. */
  function InsertPos<K>(e: Entry<K>, s: seq<Entry<K>>): (p: nat)
    ensures p <= |s| && forall k :: 0 <= k < p ==> s[k].1 > e.1
  {
    if s == [] || e.1 >= s[0].1 then 0 else 1 + InsertPos(e, s[1..])
  }

  /** Inserting puts `e` at `InsertPos` and shifts the entries behind it by one. */
  lemma {:induction false} InsertIndex<K>(e: Entry<K>, s: seq<Entry<K>>)
    ensures |InsertByWeight(e, s)| == |s| + 1 && InsertByWeight(e, s)[InsertPos(e, s)] == e
    ensures forall k :: 0 <= k < InsertPos(e, s) ==> InsertByWeight(e, s)[k] == s[k]
    ensures forall k :: InsertPos(e, s) <= k < |s| ==> InsertByWeight(e, s)[k + 1] == s[k]
  {
    if s != [] && e.1 < s[0].1 {
      var t, r, p := s[1..], InsertByWeight(e, s[1..]), InsertPos(e, s[1..]);
      var u := InsertByWeight(e, s);
      InsertIndex(e, t);
      assert u == [s[0]] + r && InsertPos(e, s) == p + 1;
      forall k | 0 < k < p + 1 ensures u[k] == s[k] {
        assert u[k] == r[k - 1] && s[k] == t[k - 1];
      }
      forall k | p + 1 <= k < |s| ensures u[k + 1] == s[k] {
        assert u[k + 1] == r[k] && s[k] == t[k - 1];
      }
    }
  }

  /** Where an old entry ends up after inserting `e`. */
  lemma InsertShift<K>(e: Entry<K>, t: seq<Entry<K>>, x: nat) returns (y: nat)
    requires x < |t|
    ensures y == (if x < InsertPos(e, t) then x else x + 1)
    ensures y < |InsertByWeight(e, t)| && InsertByWeight(e, t)[y] == t[x]
  {
    InsertIndex(e, t);
    y := if x < InsertPos(e, t) then x else x + 1;
  }

  /** Every entry of the queue is somewhere in the sorted queue. */
  lemma SortHas<K>(q: seq<Entry<K>>, j: nat) returns (k: nat)
    requires j < |q|
    ensures k < |SortByWeight(q)| && SortByWeight(q)[k] == q[j]
  {
    SortIsSorted(q);
    assert q[j] in multiset(SortByWeight(q));
    k :| 0 <= k < |SortByWeight(q)| && SortByWeight(q)[k] == q[j];
  }

  /**
   * The sort is stable: two entries of equal weight come out in the order
   * they went in.
   */
  lemma {:induction false} SortStable<K>(q: seq<Entry<K>>, i: nat, j: nat) returns (a: nat, b: nat)
    requires i < j < |q| && q[i].1 == q[j].1
    ensures a < b < |SortByWeight(q)| && SortByWeight(q)[a] == q[i] && SortByWeight(q)[b] == q[j]
  {
    var t := SortByWeight(q[1..]);
    var p := InsertPos(q[0], t);
    assert SortByWeight(q) == InsertByWeight(q[0], t);
    assert q[1..][j - 1] == q[j];
    if i == 0 {
      var k := SortHas(q[1..], j - 1);
      assert p <= k;
      InsertIndex(q[0], t);
      a, b := p, k + 1;
    } else {
      assert q[1..][i - 1] == q[i];
      var x, y := SortStable(q[1..], i - 1, j - 1);
      a := InsertShift(q[0], t, x);
      b := InsertShift(q[0], t, y);
    }
  }

  lemma {:induction false} InsertKeeps<K>(e: Entry<K>, s: seq<Entry<K>>)
    ensures QueueKeys(InsertByWeight(e, s)) == Codes(e.0).Keys + QueueKeys(s)
    ensures TotalWeight(InsertByWeight(e, s)) == e.1 + TotalWeight(s)
    ensures Disjoint([e] + s) ==> Disjoint(InsertByWeight(e, s))
  {
    var es := [e] + s;
    assert es[0] == e && es[1..] == s;
    if s != [] && e.1 < s[0].1 {
      var t := InsertByWeight(e, s[1..]);
      var r := [s[0]] + t;
      assert InsertByWeight(e, s) == r;
      assert r[0] == s[0] && r[1..] == t;
      InsertKeeps(e, s[1..]);
      var es' := [e] + s[1..];
      assert es'[0] == e && es'[1..] == s[1..];
      assert QueueKeys(s) == Codes(s[0].0).Keys + QueueKeys(s[1..]);
      if Disjoint(es) {
        assert Disjoint(s) && Disjoint(s[1..]);
        assert Codes(e.0).Keys !! QueueKeys(s[1..]);
        assert Disjoint(es');
        assert Codes(s[0].0).Keys !! QueueKeys(t);
      }
    }
  }

  /** What the merge loop keeps of its queue: which keys are in it, no key twice, every entry well formed. */
  ghost predicate QueueOk<K>(q: seq<Entry<K>>, keys: set<K>, alphabet: string) {
    && QueueKeys(q) == keys
    && Disjoint(q)
    && (forall e :: e in q ==> EntryOk(e, alphabet))
  }

  /** Sorting moves entries around and so keeps the keys, their disjointness and the total weight. */
  lemma {:induction false} SortKeeps<K>(q: seq<Entry<K>>, keys: set<K>, alphabet: string)
    ensures QueueOk(q, keys, alphabet) ==> QueueOk(SortByWeight(q), keys, alphabet)
    ensures TotalWeight(SortByWeight(q)) == TotalWeight(q)
    ensures |SortByWeight(q)| == |q|
  {
    SortKeepsKeys(q);
    SortIsSorted(q);
    forall e | e in SortByWeight(q) ensures e in q {
      assert e in multiset(SortByWeight(q));
    }
  }

  lemma {:induction false} SortKeepsKeys<K>(q: seq<Entry<K>>)
    ensures QueueKeys(SortByWeight(q)) == QueueKeys(q)
    ensures TotalWeight(SortByWeight(q)) == TotalWeight(q)
    ensures Disjoint(q) ==> Disjoint(SortByWeight(q))
  {
    if q != [] {
      SortKeepsKeys(q[1..]);
      var s := SortByWeight(q[1..]);
      InsertKeeps(q[0], s);
      assert ([q[0]] + s)[1..] == s;
    }
  }

  // ---------------------------------------------------------------------------
  // Merging a group into a new internal node (lines 68-75)

  /**
   * What the loop keeps of every node in the queue: the codes below it are
   * prefix-free and made of alphabet symbols; an original leaf still has the
   * empty prefix, an internal node gives every key below it a non-empty code.
   */
  ghost predicate EntryOk<K>(e: Entry<K>, alphabet: string) {
    var m := Codes(e.0);
    && PrefixFree(m)
    && AllOver(m, alphabet)
    && (e.0.Leaf? ==> e.0.prefix == "")
    && (e.0.Branch? ==> Headed(m, alphabet))
  }

  /** Every code of `m` is made of alphabet symbols. */
  ghost predicate AllOver<K>(m: map<K, string>, alphabet: string) {
    forall k :: k in m ==> CodeOver(m[k], alphabet)
  }

  /** Every code of `m` is non-empty and begins with one of `heads`. */
  ghost predicate Headed<K>(m: map<K, string>, heads: string) {
    forall k :: k in m ==> m[k] != "" && m[k][0] in heads
  }

  lemma PrependedCodes<K>(m: map<K, string>, c: char, alphabet: string)
    requires PrefixFree(m) && AllOver(m, alphabet) && c in alphabet
    ensures PrefixFree(PrependCodes(m, [c]))
    ensures AllOver(PrependCodes(m, [c]), alphabet) && Headed(PrependCodes(m, [c]), [c])
  {
    var m' := PrependCodes(m, [c]);
    forall k1, k2 | k1 in m' && k2 in m' && k1 != k2 ensures !(m'[k1] <= m'[k2]) {
      ConsPrefix(c, m[k1], m[k2]);
    }
    forall k | k in m' ensures CodeOver(m'[k], alphabet) {
      assert forall i :: 1 <= i < |m'[k]| ==> m'[k][i] == m[k][i - 1];
    }
  }

  lemma UnionPrefixFree<K>(a: map<K, string>, b: map<K, string>, c: char, heads: string, alphabet: string)
    requires a.Keys !! b.Keys && PrefixFree(a) && PrefixFree(b)
    requires AllOver(a, alphabet) && AllOver(b, alphabet)
    requires Headed(a, [c]) && Headed(b, heads) && c !in heads
    ensures PrefixFree(a + b) && AllOver(a + b, alphabet) && Headed(a + b, [c] + heads)
  {
    forall k1, k2 | k1 in a + b && k2 in a + b && k1 != k2 ensures !((a + b)[k1] <= (a + b)[k2]) {
      if (k1 in a) != (k2 in a) {
        FirstSymbolsDiffer((a + b)[k1], (a + b)[k2]);
      }
    }
  }

  /** The group after each member got its own symbol: no key moved and no weight changed (lines 71-72). */
  lemma {:induction false} MergeGroupKeys<K>(g: seq<Entry<K>>, g': seq<Entry<K>>, symbols: string)
    requires |g| == |g'| == |symbols|
    requires forall j :: 0 <= j < |g| ==> g'[j] == (PrependPrefix(g[j].0, [symbols[j]]), g[j].1)
    requires Disjoint(g)
    ensures QueueKeys(g') == QueueKeys(g) && Disjoint(g') && TotalWeight(g') == TotalWeight(g)
  {
    if g != [] {
      var h, h' := g[0], g'[0];
      assert forall j :: 0 <= j < |g| - 1 ==> g'[1..][j] == g'[j + 1] && g[1..][j] == g[j + 1];
      MergeGroupKeys(g[1..], g'[1..], symbols[1..]);
      PrependPrefixSpec(h.0, [symbols[0]]);
      assert Codes(h'.0).Keys == Codes(h.0).Keys;
    }
  }

  /**
   * The codes of the group after each member got its own symbol: they are
   * prefix-free together, and each begins with one of the symbols handed out.
   */
  lemma {:induction false} MergeGroupCodes<K>(g: seq<Entry<K>>, g': seq<Entry<K>>, symbols: string, alphabet: string)
    requires |g| == |g'| == |symbols|
    requires forall j :: 0 <= j < |g| ==> g'[j] == (PrependPrefix(g[j].0, [symbols[j]]), g[j].1)
    requires forall i, j :: 0 <= i < j < |symbols| ==> symbols[i] != symbols[j]
    requires forall j :: 0 <= j < |symbols| ==> symbols[j] in alphabet
    requires Disjoint(g') && forall e :: e in g ==> EntryOk(e, alphabet)
    ensures PrefixFree(QueueCodes(g')) && AllOver(QueueCodes(g'), alphabet)
    ensures Headed(QueueCodes(g'), symbols)
  {
    if g != [] {
      var h, h', c := g[0], g'[0], symbols[0];
      var rest := symbols[1..];
      assert h in g;
      assert forall e :: e in g[1..] ==> e in g;
      assert forall j :: 0 <= j < |g| - 1 ==> g'[1..][j] == g'[j + 1] && g[1..][j] == g[j + 1];
      assert forall j :: 0 <= j < |rest| ==> rest[j] == symbols[j + 1];
      MergeGroupCodes(g[1..], g'[1..], rest, alphabet);
      PrependPrefixSpec(h.0, [c]);
      PrependedCodes(Codes(h.0), c, alphabet);
      CodesOfNodes(g'[1..]);
      assert c !in rest;
      UnionHeaded(Codes(h'.0), QueueCodes(g'[1..]), symbols, alphabet);
    }
  }

  /** The codes under the first symbol and those under the other symbols together. */
  lemma UnionHeaded<K>(a: map<K, string>, b: map<K, string>, symbols: string, alphabet: string)
    requires |symbols| > 0 && symbols[0] !in symbols[1..]
    requires a.Keys !! b.Keys && PrefixFree(a) && PrefixFree(b)
    requires AllOver(a, alphabet) && AllOver(b, alphabet)
    requires Headed(a, [symbols[0]]) && Headed(b, symbols[1..])
    ensures PrefixFree(a + b) && AllOver(a + b, alphabet) && Headed(a + b, symbols)
  {
    UnionPrefixFree(a, b, symbols[0], symbols[1..], alphabet);
    assert [symbols[0]] + symbols[1..] == symbols;
  }

  /** Appending a fresh leaf for a new key keeps the queue well formed (line 55). */
  lemma AddLeaf<K>(q: seq<Entry<K>>, k: K, w: nat, keys: set<K>, alphabet: string)
    requires QueueOk(q, keys, alphabet) && k !in keys
    ensures QueueOk(q + [(Leaf("", k), w)], keys + {k}, alphabet)
  {
    var leaf: Entry<K> := (Leaf("", k), w);
    QueueAppend(q, [leaf]);
    assert QueueKeys([leaf]) == {k};
    assert Disjoint([leaf]);
    assert PrefixFree(Codes(leaf.0));
    assert CodeOver("", alphabet);
  }

  /**
   * One round of the merge loop (lines 62-75) keeps the queue well formed and
   * its total weight: `queue` and `group` are the two halves of the sorted
   * queue, and `group'` is the group after each member got its symbol.
   */
  lemma MergeRound<K>(queue: seq<Entry<K>>, group: seq<Entry<K>>, group': seq<Entry<K>>,
                      keys: set<K>, symbols: string)
    requires QueueOk(queue + group, keys, symbols)
    requires |group| == |group'| <= |symbols|
    requires forall j :: 0 <= j < |group| ==> group'[j] == (PrependPrefix(group[j].0, [symbols[j]]), group[j].1)
    requires forall i, j :: 0 <= i < j < |symbols| ==> symbols[i] != symbols[j]
    ensures QueueOk(queue + [(Branch("", NodesOf(group')), TotalWeight(group))], keys, symbols)
    ensures TotalWeight(queue + [(Branch("", NodesOf(group')), TotalWeight(group))]) == TotalWeight(queue + group)
  {
    QueueAppend(queue, group);
    assert forall e :: e in group ==> e in queue + group;
    assert forall e :: e in queue ==> e in queue + group;
    var used := symbols[..|group|];
    MergeGroupKeys(group, group', used);
    MergeGroupCodes(group, group', used, symbols);
    CodesOfNodes(group');
    var merged: Entry<K> := (Branch("", NodesOf(group')), TotalWeight(group));
    assert Codes(merged.0) == QueueCodes(group');
    assert Headed(QueueCodes(group'), symbols) by {
      forall k | k in QueueCodes(group') ensures QueueCodes(group')[k][0] in symbols {
        assert QueueCodes(group')[k][0] in used;
      }
    }
    assert EntryOk(merged, symbols);
    assert QueueKeys([merged]) == QueueKeys(group');
    assert Disjoint([merged]);
    assert TotalWeight([merged]) == TotalWeight(group);
    QueueAppend(queue, [merged]);
  }

  // ---------------------------------------------------------------------------
  // `_encoding` (lines 46-81)

  /** An initial queue (line 55): one leaf with the empty prefix per key, weighted by its count. */
  ghost predicate LeafQueue<K>(q: seq<Entry<K>>, count: map<K, nat>) {
    && |q| == |count| && QueueKeys(q) == count.Keys
    && forall e :: e in q ==> e.0.Leaf? && e.0.prefix == "" && e.0.key in count && e.1 == count[e.0.key]
  }

  /**
   * `symbols` lists each symbol of the alphabet once, in some order: one of
   * the orders in which the set built at line 52 may be iterated.
   */
  ghost predicate SymbolOrder(symbols: string, alphabet: string) {
    && (forall c :: c in symbols <==> c in alphabet)
    && (forall i, j :: 0 <= i < j < |symbols| ==> symbols[i] != symbols[j])
  }

  /**
   * `m` is the code the merge loop builds for `count`: the codes below the
   * last node left by `Merged`, started from one empty-prefixed leaf per key
   * and labelling with the alphabet's symbols in some set order.
   */
  ghost predicate MergedCode<K(!new)>(m: map<K, string>, count: map<K, nat>, alphabet: string) {
    exists leaves, symbols ::
      && LeafQueue(leaves, count) && SymbolOrder(symbols, alphabet)
      && leaves != [] && (|symbols| >= 2 || |leaves| <= 1)
      && m == Codes(Merged(leaves, symbols)[0].0)
  }

  /** Taking one more key into the initial queue keeps it well formed. */
  lemma LeavesStep<K>(count: map<K, nat>, alphabet: string, queue: seq<Entry<K>>, rest: set<K>, k: K)
    requires rest <= count.Keys && k in rest
    requires QueueOk(queue, count.Keys - rest, alphabet) && |queue| == |count.Keys - rest|
    requires forall e :: e in queue ==> e.0.Leaf? && e.0.key in count && e.1 == count[e.0.key]
    ensures var queue', rest' := queue + [(Leaf("", k), count[k])], rest - {k};
      && QueueOk(queue', count.Keys - rest', alphabet) && |queue'| == |count.Keys - rest'|
      && forall e :: e in queue' ==> e.0.Leaf? && e.0.key in count && e.1 == count[e.0.key]
  {
    AddLeaf(queue, k, count[k], count.Keys - rest, alphabet);
    assert count.Keys - (rest - {k}) == (count.Keys - rest) + {k};
  }

  /**
   * The initial queue (line 55): one leaf with the empty prefix per key of
   * `count`, weighted by its count. The keys are taken in an arbitrary order,
   * as the order of a dictionary is not part of what the code promises.
   */
  method Leaves<K(==)>(count: map<K, nat>, alphabet: string) returns (queue: seq<Entry<K>>)
    ensures QueueOk(queue, count.Keys, alphabet) && |queue| == |count|
    ensures forall e :: e in queue ==> e.0.Leaf? && e.0.key in count && e.1 == count[e.0.key]
  {
    queue := [];
    var rest := count.Keys;
    while rest != {}
      invariant rest <= count.Keys
      invariant QueueOk(queue, count.Keys - rest, alphabet) && |queue| == |count.Keys - rest|
      invariant forall e :: e in queue ==> e.0.Leaf? && e.0.key in count && e.1 == count[e.0.key]
      decreases rest
    {
      var k :| k in rest;
      LeavesStep(count, alphabet, queue, rest, k);
      queue := queue + [(Leaf("", k), count[k])];
      rest := rest - {k};
    }
    assert count.Keys - rest == count.Keys;
  }

  /** The group with symbol `j` put in front of every prefix below member `j`. */
  function LabelGroup<K>(group: seq<Entry<K>>, symbols: string): seq<Entry<K>>
    requires |group| <= |symbols|
  {
    seq(|group|, j requires 0 <= j < |group| => (PrependPrefix(group[j].0, [symbols[j]]), group[j].1))
  }

  /** How many entries a round splits off (lines 64-67): as many as there are symbols, or all of them. */
  function GroupSize(queueLength: nat, alphabetSize: nat): (m: nat)
    ensures m <= queueLength && m <= alphabetSize
    ensures m == queueLength || m == alphabetSize
  {
    if queueLength > alphabetSize then alphabetSize else queueLength
  }

  /**
   * The queue after one round of the merge loop (lines 61-75): sorted
   * heaviest first, the lightest `GroupSize` entries replaced by one internal
   * node over them, member `j` labelled with symbol `j`, weighted by their sum.
   */
  function Round<K>(queue: seq<Entry<K>>, symbols: string): (next: seq<Entry<K>>)
    requires |queue| > 0
    ensures |next| == |queue| - GroupSize(|queue|, |symbols|) + 1
  {
    SortIsSorted(queue);
    var sorted, m := SortByWeight(queue), GroupSize(|queue|, |symbols|);
    sorted[..|queue| - m] + [(Branch("", NodesOf(LabelGroup(sorted[|queue| - m..], symbols))), TotalWeight(sorted[|queue| - m..]))]
  }

  /** The queue the merge loop ends with: rounds until at most one entry is left (lines 60-75). */
  function Merged<K>(queue: seq<Entry<K>>, symbols: string): (root: seq<Entry<K>>)
    requires |symbols| >= 2 || |queue| <= 1
    ensures |root| <= 1 && (|root| == 0 <==> |queue| == 0)
    decreases |queue|
  {
    if |queue| <= 1 then queue else Merged(Round(queue, symbols), symbols)
  }

  /** Member `j` of the group gets symbol `j` in front of its prefixes (lines 71-72). */
  method Label<K>(group: seq<Entry<K>>, symbols: string) returns (labelled: seq<Entry<K>>)
    requires |group| <= |symbols|
    ensures |labelled| == |group|
    ensures forall j :: 0 <= j < |group| ==> labelled[j] == (PrependPrefix(group[j].0, [symbols[j]]), group[j].1)
    ensures labelled == LabelGroup(group, symbols)
  {
    labelled := [];
    for i := 0 to |group|
      invariant |labelled| == i
      invariant forall j :: 0 <= j < i ==> labelled[j] == (PrependPrefix(group[j].0, [symbols[j]]), group[j].1)
    {
      labelled := labelled + [(PrependPrefix(group[i].0, [symbols[i]]), group[i].1)];
    }
  }

  /**
   * One round of the merge loop (lines 61-75): sort the queue heaviest first,
   * split off the lightest `min(|symbols|, |queue|)` entries, give each its
   * own symbol, and append one internal node over them weighted by their sum.
   * The heavier entries stay in front in sorted order, the new node goes
   * last. The queue gets shorter, keeps its keys and well-formedness, and
   * keeps its total weight.
   */
  method MergeLightest<K>(queue: seq<Entry<K>>, symbols: string, ghost keys: set<K>) returns (next: seq<Entry<K>>)
    requires |queue| > 1 && |symbols| >= 2
    requires forall i, j :: 0 <= i < j < |symbols| ==> symbols[i] != symbols[j]
    requires QueueOk(queue, keys, symbols)
    ensures QueueOk(next, keys, symbols)
    ensures TotalWeight(next) == TotalWeight(queue)
    ensures 0 < |next| < |queue|
    ensures var sorted, m := SortByWeight(queue), GroupSize(|queue|, |symbols|);
      && |sorted| == |queue|
      && next[..|next| - 1] == sorted[..|queue| - m]
      && next[|next| - 1] == (Branch("", NodesOf(LabelGroup(sorted[|queue| - m..], symbols))), TotalWeight(sorted[|queue| - m..]))
    ensures next == Round(queue, symbols)
  {
    // Sort, keeping the sorted queue (the source binds the result of list.sort, None).
    var sorted := SortByWeight(queue);
    SortKeeps(queue, keys, symbols);
    var rest, group;
    if |sorted| > |symbols| {
      rest, group := sorted[..|sorted| - |symbols|], sorted[|sorted| - |symbols|..];
    } else {
      rest, group := [], sorted;
    }
    assert sorted == rest + group;
    assert group == sorted[|queue| - GroupSize(|queue|, |symbols|)..];
    var newWeight := TotalWeight(group);

    var labelled := Label(group, symbols);
    MergeRound(rest, group, labelled, keys, symbols);
    next := rest + [(Branch("", NodesOf(labelled)), newWeight)];
  }

  /**
   * The merge loop (lines 60-75): rounds of MergeLightest until one node is
   * left. A queue of at most one entry is returned as it is.
   */
  method MergeAll<K>(queue: seq<Entry<K>>, symbols: string, ghost keys: set<K>) returns (root: seq<Entry<K>>)
    requires |symbols| >= 2 || |queue| <= 1
    requires forall i, j :: 0 <= i < j < |symbols| ==> symbols[i] != symbols[j]
    requires QueueOk(queue, keys, symbols)
    ensures QueueOk(root, keys, symbols) && TotalWeight(root) == TotalWeight(queue)
    ensures |root| <= 1 && (|root| == 0 <==> |queue| == 0)
    ensures |queue| <= 1 ==> root == queue
    ensures root == Merged(queue, symbols)
  {
    root := queue;
    while |root| > 1
      invariant QueueOk(root, keys, symbols) && TotalWeight(root) == TotalWeight(queue)
      invariant (|root| == 0 <==> |queue| == 0) && (|queue| <= 1 ==> root == queue)
      invariant Merged(root, symbols) == Merged(queue, symbols)
      decreases |root|
    {
      root := MergeLightest(root, symbols, keys);
    }
  }

  /** The codes below the last node of the queue (lines 78-80). */
  lemma RootCodes<K>(queue: seq<Entry<K>>, keys: set<K>, symbols: string, alphabet: string)
    requires QueueOk(queue, keys, symbols) && |queue| == 1
    requires forall c :: c in symbols ==> c in alphabet
    ensures Codes(queue[0].0).Keys == keys && PrefixFree(Codes(queue[0].0))
    ensures |keys| >= 2 ==>
      forall k :: k in Codes(queue[0].0) ==> Codes(queue[0].0)[k] != "" && CodeOver(Codes(queue[0].0)[k], alphabet)
    ensures queue[0].0.Leaf? ==> forall k :: k in Codes(queue[0].0) ==> Codes(queue[0].0)[k] == ""
  {
    var root := queue[0];
    assert root in queue;
    assert QueueKeys(queue) == Codes(root.0).Keys;
    if root.0.Leaf? {
      assert Codes(root.0).Keys == {root.0.key};
    }
  }

  /**
   * Builds a prefix-free code for the keys of `count` over `alphabet`: every
   * round sorts the queue heaviest first, splits off the lightest
   * `min(|alphabet|, |queue|)` entries, gives each its own symbol and puts a
   * new internal node with their summed weight back; at the end every key is
   * mapped to its leaf's accumulated prefix.
   *
   * The source never checks the alphabet. Once the sort at line 61 keeps the
   * sorted list, one symbol and two or more keys make a queue that never
   * shrinks, and no symbol at all raises IndexError. Both are reported here as
   * AlphabetTooSmall. With a single key the loop does not run
   * and the key's code is "".
   */
  method Encoding<K(==,!new)>(count: map<K, nat>, alphabet: string) returns (r: Result<map<K, string>>)
    ensures r.Err? <==> |Dedup(alphabet)| < 2 && |count| >= 2
    ensures r.Ok? ==> r.value.Keys == count.Keys && PrefixFree(r.value)
    ensures r.Ok? && |count| >= 2 ==>
      forall k :: k in r.value ==> r.value[k] != "" && CodeOver(r.value[k], alphabet)
    ensures r.Ok? && |count| == 1 ==> forall k :: k in r.value ==> r.value[k] == ""
    ensures r.Ok? && |count| > 0 ==> MergedCode(r.value, count, alphabet)
  {
    var symbols := Dedup(alphabet);
    if |symbols| < 2 && |count| >= 2 {
      return Err(AlphabetTooSmall);
    }

    var leaves := Leaves(count, symbols);
    var queue := MergeAll(leaves, symbols, count.Keys);

    // Read every key's code off the remaining root (lines 78-80).
    if |queue| == 0 {
      return Ok(map[]);
    }
    RootCodes(queue, count.Keys, symbols, alphabet);
    if |count| == 1 {
      assert queue[0] in leaves;
    }
    r := Ok(Codes(queue[0].0));
    assert LeafQueue(leaves, count) && SymbolOrder(symbols, alphabet);
  }
}
