/** The string table (lstring.c): every string is kept once, so that strings are equal if their
    references are. */
module LuaStrings {
  import opened LuaBasics
  import opened LuaResults
  import opened LuaPatterns

  /** A string object: its characters, their hash, the next object of its bucket, and whether the
      collector has found it dead. */
  datatype TString = TString(content: seq<Byte>, h: nat, next: int, dead: bool)

  type Memory = seq<TString>
  type Chains = seq<seq<nat>>
  type Hash = seq<Byte> -> nat

  const NULL: int := -1

  // ---- buckets

  /** `lmod`. */
  function Bucket(h: nat, size: nat): (b: nat)
    requires size > 0
    ensures b < size
  {
    h % size
  }

  /** The objects of `chain`, one linked to the next, from `head` on. */
  ghost predicate ChainAt(mem: Memory, head: int, chain: seq<nat>) {
    && head == First(chain)
    && forall i :: 0 <= i < |chain| ==> LinkedAt(mem, chain, i)
  }

  function First(chain: seq<nat>): int { if chain == [] then NULL else chain[0] }

  ghost predicate LinkedAt(mem: Memory, chain: seq<nat>, i: nat)
    requires i < |chain|
  {
    chain[i] < |mem| && mem[chain[i]].next == First(chain[i + 1..])
  }

  function Total(chains: Chains): nat {
    if chains == [] then 0 else |chains[0]| + Total(chains[1..])
  }

  /** The table has the object. */
  predicate Interned(mem: Memory, chains: Chains, r: nat) {
    chains != [] && r < |mem| && r in chains[Bucket(mem[r].h, |chains|)]
  }

  /** Every object of a bucket is a string whose hash selects the bucket. */
  ghost predicate Placed(hash: Hash, mem: Memory, chains: Chains) {
    forall b, r :: 0 <= b < |chains| && r in chains[b] ==> IsPlaced(hash, mem, r, b, |chains|)
  }

  ghost predicate IsPlaced(hash: Hash, mem: Memory, r: nat, b: nat, size: nat)
    requires size > 0
  {
    r < |mem| && mem[r].h == hash(mem[r].content) && Bucket(mem[r].h, size) == b
  }

  ghost predicate AllDistinct(chains: Chains) { forall b :: 0 <= b < |chains| ==> Distinct(chains[b]) }

  /** No two objects of the table have the same characters. */
  ghost predicate OnceEach(mem: Memory, chains: Chains) {
    forall r: nat, q: nat ::
      Interned(mem, chains, r) && Interned(mem, chains, q) && mem[r].content == mem[q].content ==> r == q
  }

  ghost predicate Linked(mem: Memory, heads: seq<int>, chains: Chains) {
    |heads| == |chains| && forall b :: 0 <= b < |chains| ==> ChainAt(mem, heads[b], chains[b])
  }

  ghost predicate Good(hash: Hash, mem: Memory, heads: seq<int>, chains: Chains, nuse: nat) {
    && |heads| > 0 && Linked(mem, heads, chains) && Placed(hash, mem, chains) && AllDistinct(chains)
    && OnceEach(mem, chains) && nuse == Total(chains)
  }

  /** Equality of references is equality of strings, and each is in the bucket that its hash selects. */
  lemma SameStringSameReference(hash: Hash, mem: Memory, heads: seq<int>, chains: Chains, nuse: nat, b: nat, c: nat,
      r: nat, q: nat)
    requires Good(hash, mem, heads, chains, nuse) && b < |chains| && c < |chains| && r in chains[b] && q in chains[c]
    ensures r < |mem| && q < |mem| && (r == q <==> mem[r].content == mem[q].content)
    ensures b == Bucket(hash(mem[r].content), |heads|)
  {
    assert IsPlaced(hash, mem, r, b, |chains|) && IsPlaced(hash, mem, q, c, |chains|);
  }

  lemma {:induction false} TotalUpdate(chains: Chains, b: nat, c: seq<nat>)
    requires b < |chains|
    ensures Total(chains[b := c]) == Total(chains) - |chains[b]| + |c|
  {
    if b == 0 {
      assert chains[b := c][1..] == chains[1..];
    } else {
      assert chains[b := c][1..] == chains[1..][b - 1 := c];
      TotalUpdate(chains[1..], b - 1, c);
    }
  }

  lemma {:induction false} TotalSplits(chains: Chains, b: nat)
    requires b < |chains|
    ensures Total(chains[..b + 1]) == Total(chains[..b]) + |chains[b]|
  {
    if b == 0 {
      assert chains[..b + 1] == [chains[0]] && Total([chains[0]][1..]) == 0;
    } else {
      assert chains[..b + 1][1..] == chains[1..][..b] && chains[..b][1..] == chains[1..][..b - 1];
      TotalSplits(chains[1..], b - 1);
    }
  }

  function NoChains(n: nat): Chains { seq(n, _ => []) }

  lemma {:induction false} NothingTotal(n: nat)
    ensures Total(NoChains(n)) == 0
  {
    if n > 0 {
      assert NoChains(n)[1..] == NoChains(n - 1);
      NothingTotal(n - 1);
    }
  }

  /** Only the object `p` has changed, and it is not in the chain. */
  lemma Elsewhere(mem: Memory, mem': Memory, p: nat, head: int, chain: seq<nat>)
    requires |mem| <= |mem'| && p !in chain && ChainAt(mem, head, chain) && forall i :: 0 <= i < |mem| && i != p ==>
      mem'[i] == mem[i]
    ensures ChainAt(mem', head, chain)
  {
    forall i | 0 <= i < |chain| ensures LinkedAt(mem', chain, i) {
      assert LinkedAt(mem, chain, i) && chain[i] in chain;
    }
  }

  lemma Prepended(mem: Memory, p: nat, head: int, chain: seq<nat>)
    requires p < |mem| && ChainAt(mem, head, chain) && mem[p].next == head
    ensures ChainAt(mem, p, [p] + chain)
  {
    assert ([p] + chain)[1..] == chain;
    forall i | 0 <= i < |chain| + 1 ensures LinkedAt(mem, [p] + chain, i) {
      if i > 0 {
        assert LinkedAt(mem, chain, i - 1) && ([p] + chain)[i + 1..] == chain[i..];
      }
    }
  }

  lemma TailOf(mem: Memory, head: int, chain: seq<nat>)
    requires ChainAt(mem, head, chain) && chain != []
    ensures head == chain[0] < |mem| && ChainAt(mem, mem[chain[0]].next, chain[1..])
  {
    assert LinkedAt(mem, chain, 0);
    forall i | 0 <= i < |chain| - 1 ensures LinkedAt(mem, chain[1..], i) {
      assert LinkedAt(mem, chain, i + 1) && chain[1..][i + 1..] == chain[i + 2..];
    }
  }

  lemma DistinctWith(p: nat, chain: seq<nat>)
    requires p !in chain && Distinct(chain)
    ensures Distinct([p] + chain)
  {
  }

  lemma OneBucket(hash: Hash, mem: Memory, chains: Chains, r: nat, b: nat, c: nat)
    requires Placed(hash, mem, chains) && b < |chains| && c < |chains| && r in chains[b] && r in chains[c]
    ensures b == c
  {
    assert IsPlaced(hash, mem, r, b, |chains|) && IsPlaced(hash, mem, r, c, |chains|);
  }

  // ---- a new string

  ghost predicate Unknown(mem: Memory, chains: Chains, s: seq<Byte>) {
    forall q: nat :: Interned(mem, chains, q) ==> mem[q].content != s
  }

  /** A new object at the front of its bucket. */
  lemma Entered(hash: Hash, mem: Memory, heads: seq<int>, chains: Chains, nuse: nat, s: seq<Byte>, b: nat, o: TString)
    requires Good(hash, mem, heads, chains, nuse) && Unknown(mem, chains, s)
    requires b == Bucket(hash(s), |heads|) && o.content == s && o.h == hash(s) && o.next == heads[b]
    ensures Good(hash, mem + [o], heads[b := |mem|], chains[b := [|mem|] + chains[b]], nuse + 1)
    ensures Interned(mem + [o], chains[b := [|mem|] + chains[b]], |mem|)
    ensures forall q: nat :: Interned(mem + [o], chains[b := [|mem|] + chains[b]], q) <==>
      q == |mem| || Interned(mem, chains, q)
  {
    var p, mem', heads', chains' := |mem|, mem + [o], heads[b := |mem|], chains[b := [|mem|] + chains[b]];
    forall c, r | 0 <= c < |chains| && r in chains[c] ensures r < p {
      assert IsPlaced(hash, mem, r, c, |chains|);
    }
    forall c | 0 <= c < |chains| ensures ChainAt(mem', heads'[c], chains'[c]) {
      Elsewhere(mem, mem', p, heads[c], chains[c]);
      if c == b {
        Prepended(mem', p, heads[b], chains[b]);
      }
    }
    forall c, r | 0 <= c < |chains'| && r in chains'[c] ensures IsPlaced(hash, mem', r, c, |chains'|) {
      assert r != p ==> IsPlaced(hash, mem, r, c, |chains|);
    }
    DistinctWith(p, chains[b]);
    TotalUpdate(chains, b, [p] + chains[b]);
  }

  // ---- new buckets

  ghost predicate SameStrings(mem0: Memory, mem: Memory) {
    |mem| == |mem0| && forall r :: 0 <= r < |mem| ==> SameString(mem0[r], mem[r])
  }

  predicate SameString(a: TString, b: TString) { a.content == b.content && a.h == b.h && a.dead == b.dead }

  /** While the table is resized: the objects of `done` have been moved; those of `rest`, in bucket `i`,
      and those of the buckets after it have not. */
  ghost predicate Left(mem0: Memory, mem: Memory, heads: seq<int>, chains: Chains, done: set<nat>, i: nat, p: int,
      rest: seq<nat>) {
    && SameStrings(mem0, mem) && |heads| == |chains|
    && ChainAt(mem, p, rest) && Distinct(rest) && (forall r :: r in rest ==>
       r !in done && i < |chains| && r in chains[i])
    && (forall c :: i < c < |chains| ==> IsLeft(mem, heads[c], chains[c], done))
    && (forall r: nat :: r in done ==> Interned(mem0, chains, r))
    && (forall r: nat :: Interned(mem0, chains, r) ==> IsDone(r, Bucket(mem0[r].h, |chains|), done, i, rest))
  }

  predicate IsDone(r: nat, c: nat, done: set<nat>, i: nat, rest: seq<nat>) {
    (c < i ==> r in done) && (c == i ==> r in done || r in rest)
  }

  ghost predicate IsLeft(mem: Memory, head: int, chain: seq<nat>, done: set<nat>) {
    ChainAt(mem, head, chain) && forall r :: r in chain ==> r !in done
  }

  /** The objects of `done` are in the new buckets. */
  ghost predicate Rehashed(hash: Hash, mem: Memory, heads: seq<int>, chains: Chains, done: set<nat>) {
    && |heads| > 0 && Linked(mem, heads, chains) && Placed(hash, mem, chains) && AllDistinct(chains)
    && (forall r: nat :: r in done <==> Interned(mem, chains, r))
  }

  lemma MovedOne(hash: Hash, mem: Memory, heads: seq<int>, chains: Chains, done: set<nat>, p: nat, mem': Memory)
    requires Rehashed(hash, mem, heads, chains, done) && p < |mem| && p !in done && mem[p].h == hash(mem[p].content)
    requires var b := Bucket(mem[p].h, |heads|); mem' == mem[p := mem[p].(next := heads[b])]
    ensures var b := Bucket(mem[p].h, |heads|);
      Rehashed(hash, mem', heads[b := p], chains[b := [p] + chains[b]], done + {p})
  {
    var b := Bucket(mem[p].h, |heads|);
    var heads', chains' := heads[b := p], chains[b := [p] + chains[b]];
    forall c, r | 0 <= c < |chains| && r in chains[c] ensures r != p {
      assert IsPlaced(hash, mem, r, c, |chains|);
      assert Interned(mem, chains, r);
    }
    forall c | 0 <= c < |chains| ensures ChainAt(mem', heads'[c], chains'[c]) {
      Elsewhere(mem, mem', p, heads[c], chains[c]);
      if c == b {
        Prepended(mem', p, heads[b], chains[b]);
      }
    }
    forall c, r | 0 <= c < |chains'| && r in chains'[c] ensures IsPlaced(hash, mem', r, c, |chains'|) {
      assert r != p ==> IsPlaced(hash, mem, r, c, |chains|);
    }
    DistinctWith(p, chains[b]);
    forall r: nat ensures r in done + {p} <==> Interned(mem', chains', r) {
      assert r in done <==> Interned(mem, chains, r);
    }
  }

  lemma LeftOne(hash: Hash, mem0: Memory, mem: Memory, heads: seq<int>, chains: Chains, done: set<nat>, i: nat, p: nat,
      rest: seq<nat>, mem': Memory, next: int)
    requires Left(mem0, mem, heads, chains, done, i, p, rest) && rest != [] && Placed(hash, mem0, chains)
    requires p < |mem| && next == mem[p].next && |mem'| == |mem| && SameString(mem[p], mem'[p]) && forall r ::
      0 <= r < |mem| && r != p ==> mem'[r] == mem[r]
    ensures p == rest[0] && Left(mem0, mem', heads, chains, done + {p}, i, next, rest[1..])
    ensures p !in done && mem[p].h == hash(mem[p].content)
  {
    TailOf(mem, p, rest);
    assert p in chains[i] && IsPlaced(hash, mem0, p, i, |chains|);
    assert SameString(mem0[p], mem[p]);
    Elsewhere(mem, mem', p, next, rest[1..]);
    forall c: nat | c < |chains| && p in chains[c] ensures c == i {
      OneBucket(hash, mem0, chains, p, i, c);
    }
    forall c | i < c < |chains| ensures IsLeft(mem', heads[c], chains[c], done + {p}) {
      assert IsLeft(mem, heads[c], chains[c], done);
      Elsewhere(mem, mem', p, heads[c], chains[c]);
    }
    forall r: nat | Interned(mem0, chains, r) ensures IsDone(r, Bucket(mem0[r].h, |chains|), done + {p}, i, rest[1..]) {
      assert IsDone(r, Bucket(mem0[r].h, |chains|), done, i, rest);
    }
  }

  /** The next bucket. */
  lemma LeftNext(mem0: Memory, mem: Memory, heads: seq<int>, chains: Chains, done: set<nat>, i: nat, p: int)
    requires Left(mem0, mem, heads, chains, done, i, p, []) && i < |chains| && AllDistinct(chains)
    ensures i + 1 < |chains| ==> Left(mem0, mem, heads, chains, done, i + 1, heads[i + 1], chains[i + 1])
    ensures i + 1 == |chains| ==> Left(mem0, mem, heads, chains, done, i + 1, NULL, [])
  {
    if i + 1 < |chains| {
      assert IsLeft(mem, heads[i + 1], chains[i + 1], done);
    }
    var rest := if i + 1 < |chains| then chains[i + 1] else [];
    forall r: nat | Interned(mem0, chains, r) ensures IsDone(r, Bucket(mem0[r].h, |chains|), done, i + 1, rest) {
      assert IsDone(r, Bucket(mem0[r].h, |chains|), done, i, []);
    }
  }

  lemma LeftAtFirst(hash: Hash, mem: Memory, heads: seq<int>, chains: Chains, nuse: nat)
    requires Good(hash, mem, heads, chains, nuse)
    ensures Left(mem, mem, heads, chains, {}, 0, heads[0], chains[0])
  {
    forall c | 0 < c < |chains| ensures IsLeft(mem, heads[c], chains[c], {}) {
      assert ChainAt(mem, heads[c], chains[c]);
    }
  }

  lemma AllMoved(hash: Hash, mem0: Memory, mem: Memory, heads0: seq<int>, chains0: Chains, nuse: nat, heads: seq<int>,
      chains: Chains, done: set<nat>)
    requires Good(hash, mem0, heads0, chains0, nuse) && Left(mem0, mem, heads0, chains0, done, |chains0|, NULL, [])
    requires Rehashed(hash, mem, heads, chains, done) && Total(chains) == nuse
    ensures Good(hash, mem, heads, chains, nuse)
    ensures forall r: nat :: Interned(mem, chains, r) <==> Interned(mem0, chains0, r)
  {
    forall r: nat ensures Interned(mem, chains, r) <==> Interned(mem0, chains0, r) {
      assert Interned(mem0, chains0, r) ==> IsDone(r, Bucket(mem0[r].h, |chains0|), done, |chains0|, []);
      assert r in done <==> Interned(mem, chains, r);
    }
    forall r: nat, q: nat | Interned(mem, chains, r) && Interned(mem, chains, q) && mem[r].content == mem[q].content
      ensures r == q {
      assert SameString(mem0[r], mem[r]) && SameString(mem0[q], mem[q]);
    }
  }

  // ---- freeing

  /** One object less in the chain, whose predecessor, if any, is linked to its successor. */
  lemma Unlinked(mem: Memory, mem': Memory, head: int, head': int, kept: seq<nat>, p: nat, rest: seq<nat>)
    requires ChainAt(mem, head, kept + [p] + rest) && Distinct(kept + [p] + rest) && p < |mem|
    requires kept == [] ==> mem' == mem && head' == mem[p].next
    requires kept != [] ==>
      head' == head && kept[|kept| - 1] < |mem| &&
      mem' == mem[kept[|kept| - 1] := mem[kept[|kept| - 1]].(next := mem[p].next)]
    ensures ChainAt(mem', head', kept + rest) && Distinct(kept + rest)
  {
    var whole, left, n := kept + [p] + rest, kept + rest, |kept|;
    assert LinkedAt(mem, whole, n) && whole[n + 1..] == rest;
    forall i | 0 <= i < |left| ensures left[i] == whole[if i < n then i else i + 1] {
    }
    forall i | 0 <= i < |left| ensures LinkedAt(mem', left, i) {
      assert LinkedAt(mem, whole, if i < n then i else i + 1);
      assert n > 0 && i != n - 1 ==> left[i] != whole[n - 1];
      if i + 1 < n {
        assert left[i + 1..][0] == left[i + 1] == whole[i + 1] == whole[i + 1..][0];
      } else if i + 1 == n {
        assert left[i + 1..] == rest;
      } else {
        assert left[i + 1..] == whole[i + 2..];
      }
    }
  }

  lemma FreedOne(hash: Hash, mem: Memory, heads: seq<int>, chains: Chains, nuse: nat, b: nat, kept: seq<nat>, p: nat,
      rest: seq<nat>, mem': Memory, heads': seq<int>)
    requires Good(hash, mem, heads, chains, nuse) && b < |heads| && chains[b] == kept + [p] + rest && p < |mem|
    requires kept == [] ==> mem' == mem && heads' == heads[b := mem[p].next]
    requires kept != [] ==>
      heads' == heads && kept[|kept| - 1] < |mem| && mem' ==
      mem[kept[|kept| - 1] := mem[kept[|kept| - 1]].(next := mem[p].next)]
    ensures nuse > 0 && Good(hash, mem', heads', chains[b := kept + rest], nuse - 1) && SameStrings(mem, mem')
    ensures forall r: nat :: Interned(mem', chains[b := kept + rest], r) <==> Interned(mem, chains, r) && r != p
  {
    hide OnceEach, Interned;
    var chains' := chains[b := kept + rest];
    Unlinked(mem, mem', heads[b], heads'[b], kept, p, rest);
    TotalUpdate(chains, b, kept + rest);
    if kept != [] {
      var last := kept[|kept| - 1];
      assert last == chains[b][|kept| - 1];
      forall c: nat | c < |chains| && last in chains[c] ensures c == b {
        OneBucket(hash, mem, chains, last, b, c);
      }
      forall c | 0 <= c < |chains| && c != b ensures ChainAt(mem', heads'[c], chains'[c]) {
        Elsewhere(mem, mem', last, heads[c], chains[c]);
      }
    }
    forall c, r | 0 <= c < |chains'| && r in chains'[c] ensures IsPlaced(hash, mem', r, c, |chains'|) {
      assert r in chains[c] && IsPlaced(hash, mem, r, c, |chains|);
    }
    FreedIsGone(hash, mem, mem', chains, b, kept, p, rest);
    StillOnceEach(mem, mem', chains, chains');
  }

  lemma FreedIsGone(hash: Hash, mem: Memory, mem': Memory, chains: Chains, b: nat, kept: seq<nat>, p: nat,
      rest: seq<nat>)
    requires b < |chains| && chains[b] == kept + [p] + rest && Placed(hash, mem, chains) && AllDistinct(chains) &&
      SameStrings(mem, mem')
    ensures forall r: nat :: Interned(mem', chains[b := kept + rest], r) <==> Interned(mem, chains, r) && r != p
  {
    var chains' := chains[b := kept + rest];
    assert chains[b][|kept|] == p && IsPlaced(hash, mem, p, b, |chains|);
    assert Distinct(chains[b]);
    forall i | 0 <= i < |kept + rest| ensures (kept + rest)[i] != p {
      assert (kept + rest)[i] == chains[b][if i < |kept| then i else i + 1];
    }
    forall r: nat ensures Interned(mem', chains', r) <==> Interned(mem, chains, r) && r != p {
      if r < |mem| {
        assert SameString(mem[r], mem'[r]);
        assert r != p ==> (r in chains[b] <==> r in kept + rest);
      }
    }
  }

  lemma StillOnceEach(mem: Memory, mem': Memory, chains: Chains, chains': Chains)
    requires OnceEach(mem, chains) && SameStrings(mem, mem')
    requires forall r: nat :: Interned(mem', chains', r) ==> Interned(mem, chains, r)
    ensures OnceEach(mem', chains')
  {
    forall r: nat, q: nat | Interned(mem', chains', r) && Interned(mem', chains', q) &&
      mem'[r].content == mem'[q].content ensures r == q {
      assert SameString(mem[r], mem'[r]) && SameString(mem[q], mem'[q]);
    }
  }

  // ---- small facts

  lemma GoodParts(hash: Hash, mem: Memory, heads: seq<int>, chains: Chains, nuse: nat)
    requires Good(hash, mem, heads, chains, nuse)
    ensures |heads| == |chains| > 0 && Placed(hash, mem, chains) && AllDistinct(chains) && nuse == Total(chains)
    ensures forall b :: 0 <= b < |chains| ==> ChainAt(mem, heads[b], chains[b])
  {
  }

  lemma NothingRehashed(hash: Hash, mem: Memory, size: nat)
    requires size > 0
    ensures Rehashed(hash, mem, seq(size, _ => NULL), NoChains(size), {}) && Total(NoChains(size)) == 0
  {
    NothingTotal(size);
  }

  lemma LeftHead(mem0: Memory, mem: Memory, heads: seq<int>, chains: Chains, done: set<nat>, i: nat, p: int,
      rest: seq<nat>)
    requires Left(mem0, mem, heads, chains, done, i, p, rest)
    ensures SameStrings(mem0, mem) && |heads| == |chains| && (p == NULL <==> rest == [])
    ensures p != NULL ==> p == rest[0] < |mem|
  {
    if rest != [] {
      TailOf(mem, p, rest);
    }
  }

  lemma SameAsItself(mem: Memory)
    ensures SameStrings(mem, mem)
  {
  }

  lemma AtTheEnd(mem: Memory, p: int, rest: seq<nat>)
    requires ChainAt(mem, p, rest)
    ensures p == NULL <==> rest == []
  {
    if rest != [] {
      TailOf(mem, p, rest);
    }
  }

  lemma LastKept(hash: Hash, mem: Memory, chains: Chains, b: nat, kept: seq<nat>, rest: seq<nat>)
    requires Placed(hash, mem, chains) && b < |chains| && chains[b] == kept + rest
    ensures kept != [] ==> kept[|kept| - 1] < |mem|
  {
    if kept != [] {
      assert chains[b][|kept| - 1] == kept[|kept| - 1];
      assert IsPlaced(hash, mem, kept[|kept| - 1], b, |chains|);
    }
  }

  lemma OneSeen(mem0: Memory, mem: Memory, chain0: seq<nat>, chain: seq<nat>, kept: seq<nat>, p: nat, rest: seq<nat>)
    requires SameStrings(mem0, mem) && chain == kept + [p] + rest && Distinct(chain) && p < |mem| && p in chain0
    ensures forall r :: Survives(mem0, chain0, rest, r) <==>
      Survives(mem0, chain0, [p] + rest, r) && (r == p ==> !mem[p].dead)
  {
    assert chain[|kept|] == p && SameString(mem0[p], mem[p]);
    forall i | 0 <= i < |rest| ensures rest[i] != p {
      assert chain[|kept| + 1 + i] == rest[i];
    }
  }

  lemma Suffix(mem1: Memory, mem: Memory, head: int, next: int, kept: seq<nat>, rest: seq<nat>)
    requires ChainAt(mem1, next, rest) && ChainAt(mem, head, kept + rest)
    ensures ChainAt(mem, next, rest)
  {
    forall i | 0 <= i < |rest| ensures LinkedAt(mem, rest, i) {
      assert LinkedAt(mem, kept + rest, |kept| + i) && (kept + rest)[|kept| + i + 1..] == rest[i + 1..];
    }
  }

  lemma SameAgain(mem0: Memory, mem1: Memory, mem2: Memory)
    requires SameStrings(mem0, mem1) && SameStrings(mem1, mem2)
    ensures SameStrings(mem0, mem2)
  {
    forall r | 0 <= r < |mem0| ensures SameString(mem0[r], mem2[r]) {
      assert SameString(mem0[r], mem1[r]) && SameString(mem1[r], mem2[r]);
    }
  }

  lemma InternedInside(mem: Memory, chains: Chains)
    ensures forall r: nat :: Interned(mem, chains, r) ==> r < |mem|
  {
  }

  lemma InBucket(hash: Hash, mem: Memory, chains: Chains, b: nat, r: nat)
    requires Placed(hash, mem, chains) && b < |chains| && r in chains[b]
    ensures Interned(mem, chains, r)
  {
    assert IsPlaced(hash, mem, r, b, |chains|);
  }

  lemma NotInBucket(hash: Hash, mem: Memory, chains: Chains, s: seq<Byte>, b: nat)
    requires Placed(hash, mem, chains) && chains != [] && b == Bucket(hash(s), |chains|)
    requires forall q :: q in chains[b] ==> q < |mem| && mem[q].content != s
    ensures Unknown(mem, chains, s)
  {
    forall q: nat | Interned(mem, chains, q) ensures mem[q].content != s {
      assert IsPlaced(hash, mem, q, Bucket(mem[q].h, |chains|), |chains|);
    }
  }

  /** Whether an object is dead does not matter to the table. */
  lemma Revived(hash: Hash, mem: Memory, heads: seq<int>, chains: Chains, nuse: nat, p: nat, dead: bool)
    requires Good(hash, mem, heads, chains, nuse) && p < |mem|
    ensures var mem' := mem[p := mem[p].(dead := dead)];
      Good(hash, mem', heads, chains, nuse) && forall r: nat :: Interned(mem', chains, r) <==> Interned(mem, chains, r)
  {
    var mem' := mem[p := mem[p].(dead := dead)];
    forall c | 0 <= c < |chains| ensures ChainAt(mem', heads[c], chains[c]) {
      assert ChainAt(mem, heads[c], chains[c]);
      forall i | 0 <= i < |chains[c]| ensures LinkedAt(mem', chains[c], i) {
        assert LinkedAt(mem, chains[c], i);
      }
    }
    forall c, r | 0 <= c < |chains| && r in chains[c] ensures IsPlaced(hash, mem', r, c, |chains|) {
      assert IsPlaced(hash, mem, r, c, |chains|);
    }
  }

  // ---- the table

  class StringTable {
    const hashOf: Hash
    var mem: Memory
    var heads: seq<int>
    var nuse: nat
    var sweeping: bool  // the collector is traversing the table
    ghost var chains: Chains

    ghost predicate Valid()
      reads this
    {
      Good(hashOf, mem, heads, chains, nuse)
    }

    /** The table has the object `r`, a string with these characters. */
    ghost predicate Knows(r: nat, s: seq<Byte>)
      reads this
    {
      Interned(mem, chains, r) && mem[r].content == s
    }

    constructor (hashOf: Hash, size: nat)
      requires size > 0
      ensures Valid() && this.hashOf == hashOf && |heads| == size && !sweeping && forall r: nat ::
        !Interned(mem, chains, r)
    {
      this.hashOf, mem, heads, nuse, sweeping := hashOf, [], seq(size, _ => NULL), 0, false;
      chains := NoChains(size);
      NothingTotal(size);
    }

    /** `luaS_resize`: the same strings in new buckets. */
    method Resize(newsize: nat)
      requires Valid() && newsize > 0
      modifies this`mem, this`heads, this`chains
      ensures Valid() && (!sweeping ==> |heads| == newsize)
      ensures SameStrings(old(mem), mem) && forall r: nat :: Interned(mem, chains, r) <==> old(Interned(mem, chains, r))
    {
      hide Good, Left, Rehashed, Interned, Bucket, Placed, AllDistinct, SameStrings, ChainAt;
      GoodParts(hashOf, mem, heads, chains, nuse);
      SameAsItself(mem);
      if sweeping {
        return;
      }
      ghost var mem0, done, rest := mem, {}, chains[0];
      var newhash := seq(newsize, _ => NULL);
      ghost var fresh' := NoChains(newsize);
      NothingRehashed(hashOf, mem, newsize);
      LeftAtFirst(hashOf, mem, heads, chains, nuse);
      var i, p := 0, heads[0];
      while i < |heads|
        invariant heads == old(heads) && chains == old(chains) && |heads| == |chains| && Total(chains) == nuse
        invariant i <= |heads| && |newhash| == |fresh'| == newsize && Left(mem0, mem, heads, chains, done, i, p, rest)
        invariant if i < |heads| then p == heads[i] && rest == chains[i] else p == NULL && rest == []
        invariant Rehashed(hashOf, mem, newhash, fresh', done) && Total(fresh') == Total(chains[..i])
      {
        while p != NULL
          invariant heads == old(heads) && chains == old(chains)
          invariant |newhash| == |fresh'| == newsize && Left(mem0, mem, heads, chains, done, i, p, rest)
          invariant Rehashed(hashOf, mem, newhash, fresh', done) &&
            Total(fresh') + |rest| == Total(chains[..i]) + |chains[i]|
          decreases |rest|
        {
          LeftHead(mem0, mem, heads, chains, done, i, p, rest);
          var next, h1 := mem[p].next, Bucket(mem[p].h, newsize);
          ghost var mem1 := mem;
          mem := mem[p := mem[p].(next := newhash[h1])];
          LeftOne(hashOf, mem0, mem1, heads, chains, done, i, p, rest, mem, next);
          MovedOne(hashOf, mem1, newhash, fresh', done, p, mem);
          TotalUpdate(fresh', h1, [p as nat] + fresh'[h1]);
          fresh' := fresh'[h1 := [p as nat] + fresh'[h1]];
          newhash := newhash[h1 := p];
          done, rest, p := done + {p as nat}, rest[1..], next;
        }
        LeftHead(mem0, mem, heads, chains, done, i, p, rest);
        LeftNext(mem0, mem, heads, chains, done, i, p);
        TotalSplits(chains, i);
        i := i + 1;
        p := if i < |heads| then heads[i] else NULL;
        rest := if i < |heads| then chains[i] else [];
      }
      assert chains[..i] == chains;
      AllMoved(hashOf, mem0, mem, heads, chains, nuse, newhash, fresh', done);
      LeftHead(mem0, mem, heads, chains, done, i, p, rest);
      heads, chains := newhash, fresh';
    }

    /** `newlstr`. */
    method NewString(s: seq<Byte>, h: nat) returns (r: nat)
      requires Valid() && h == hashOf(s) && Unknown(mem, chains, s)
      modifies this`mem, this`heads, this`nuse, this`chains
      ensures Valid() && Knows(r, s) && !mem[r].dead && nuse == old(nuse) + 1
      ensures r >= |old(mem)| && forall q: nat :: Interned(mem, chains, q) <==> q == r || old(Interned(mem, chains, q))
      ensures |mem| > |old(mem)| && SameStrings(old(mem), mem[..|old(mem)|])
    {
      hide Good, Interned;
      GoodParts(hashOf, mem, heads, chains, nuse);
      var b := Bucket(h, |heads|);
      r := |mem|;
      ghost var o := TString(s, h, heads[b], false);
      Entered(hashOf, mem, heads, chains, nuse, s, b, o);
      mem := mem + [TString(s, h, heads[b], false)];
      heads := heads[b := r];
      nuse := nuse + 1;
      chains := chains[b := [r] + chains[b]];
      assert mem[..|old(mem)|] == old(mem);
      if nuse > |heads| && |heads| <= MAX_INT / 2 {
        Resize(|heads| * 2);
      }
    }

    /** `luaS_newlstr`: the string with these characters, which is not dead any more. */
    method NewLStr(s: seq<Byte>) returns (r: nat)
      requires Valid()
      modifies this`mem, this`heads, this`nuse, this`chains
      ensures Valid() && Knows(r, s) && !mem[r].dead
      ensures forall q: nat :: Interned(mem, chains, q) <==> q == r || old(Interned(mem, chains, q))
      ensures nuse == old(nuse) + if old(Interned(mem, chains, r)) then 0 else 1
      ensures forall q :: 0 <= q < |old(mem)| && q != r ==> q < |mem| && SameString(old(mem[q]), mem[q])
    {
      hide Good, Interned, Bucket;
      GoodParts(hashOf, mem, heads, chains, nuse);
      var h := hashOf(s);
      var b := Bucket(h, |heads|);
      var p := heads[b];
      ghost var rest: seq<nat> := chains[b];
      while p != NULL
        invariant mem == old(mem) && heads == old(heads) && chains == old(chains) && nuse == old(nuse)
        invariant ChainAt(mem, p, rest) && (forall q :: q in rest ==> q in chains[b])
        invariant forall q :: q in chains[b] && q !in rest ==> q < |mem| && mem[q].content != s
        decreases |rest|
      {
        TailOf(mem, p, rest);
        if mem[p].content == s {
          InBucket(hashOf, mem, chains, b, p);
          if mem[p].dead {
            Revived(hashOf, mem, heads, chains, nuse, p, false);
            mem := mem[p := mem[p].(dead := false)];
          }
          return p;
        }
        rest, p := rest[1..], mem[p].next;
      }
      NotInBucket(hashOf, mem, chains, s, b);
      InternedInside(mem, chains);
      ghost var mem0 := mem;
      r := NewString(s, h);
      forall q | 0 <= q < |mem0| ensures SameString(mem0[q], mem[q]) {
        assert SameString(mem0[q], mem[..|mem0|][q]);
      }
    }

    /** The collector finds that a string is dead. */
    method Condemn(r: nat)
      requires Valid() && Interned(mem, chains, r)
      modifies this`mem
      ensures Valid() && Interned(mem, chains, r) && mem == old(mem)[r := old(mem[r]).(dead := true)]
    {
      Revived(hashOf, mem, heads, chains, nuse, r, true);
      mem := mem[r := mem[r].(dead := true)];
    }

    /** `sweepwholelist` for a bucket: exactly its dead strings are freed. */
    method SweepBucket(b: nat)
      requires Valid() && b < |heads|
      modifies this`mem, this`heads, this`nuse, this`chains
      ensures Valid() && |heads| == |old(heads)| && SameStrings(old(mem), mem)
      ensures forall r: nat :: Interned(mem, chains, r) <==>
        old(Interned(mem, chains, r)) && !(r in old(chains[b]) && old(mem[r].dead))
    {
      hide Good, Interned, SameStrings, ChainAt;
      GoodParts(hashOf, mem, heads, chains, nuse);
      SameAsItself(mem);
      var p, prev := heads[b], NULL;
      ghost var mem0, chains0 := mem, chains;
      ghost var kept: seq<nat>, rest: seq<nat> := [], chains[b];
      assert [] + rest == rest;
      InternedInside(mem, chains);
      while p != NULL
        invariant Valid() && |heads| == |chains| == |old(heads)| && SameStrings(mem0, mem) &&
          chains[b] == kept + rest && ChainAt(mem, p, rest)
        invariant forall q :: q in rest ==> q in chains0[b]
        invariant prev == if kept == [] then NULL else kept[|kept| - 1]
        invariant forall r: nat :: Interned(mem, chains, r) <==>
          Interned(mem0, chains0, r) && Survives(mem0, chains0[b], rest, r)
        decreases |rest|
      {
        GoodParts(hashOf, mem, heads, chains, nuse);
        AtTheEnd(mem, p, rest);
        TailOf(mem, p, rest);
        var next := mem[p].next;
        ghost var mem1, heads1 := mem, heads;
        assert rest == [p as nat] + rest[1..] && kept + rest == kept + [p as nat] + rest[1..];
        OneSeen(mem0, mem, chains0[b], chains[b], kept, p, rest[1..]);
        if !mem[p].dead {
          kept := kept + [p];
          prev := p;
        } else {
          LastKept(hashOf, mem, chains, b, kept, rest);
          if prev == NULL {
            heads := heads[b := next];
          } else {
            mem := mem[prev := mem[prev].(next := next)];
          }
          FreedOne(hashOf, mem1, heads1, chains, nuse, b, kept, p, rest[1..], mem, heads);
          chains := chains[b := kept + rest[1..]];
          nuse := nuse - 1;
          GoodParts(hashOf, mem, heads, chains, nuse);
          Suffix(mem1, mem, heads[b], next, kept, rest[1..]);
          SameAgain(mem0, mem1, mem);
        }
        rest, p := rest[1..], next;
      }
      AtTheEnd(mem, p, rest);
    }
  }

  /** The object is not in the bucket, or it has not been seen, or it is alive. */
  predicate Survives(mem: Memory, chain: seq<nat>, rest: seq<nat>, r: nat) {
    r in chain && r !in rest && r < |mem| ==> !mem[r].dead
  }
}
