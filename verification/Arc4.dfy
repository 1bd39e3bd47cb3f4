/** The RC4 generator of arc4random.c and its unbiased modulo. */
module Arc4 {
  import opened Bytes

  // ----- the state -----

  type Table = t: seq<Byte> | |t| == 256 witness seq(256, _ => 0)

  datatype State = State(i: Byte, j: Byte, s: Table)

  /** Every byte stands at exactly one place. */
  ghost predicate Permutation(s: Table) {
    && (forall a, b :: 0 <= a < b < 256 ==> s[a] != s[b])
    && (forall v :: 0 <= v < 256 ==> v in s)
  }

  function Swap(s: Table, a: Byte, b: Byte): Table {
    s[a := s[b]][b := s[a]]
  }

  /** One round: i moves on, j moves by s[i] and a key byte, and the two places are swapped. */
  function Step(st: State, key: Byte): State {
    var i := (st.i + 1) % 256;
    var j := (st.j + st.s[i] + key) % 256;
    State(i, j, Swap(st.s, i, j))
  }

  function Unstep(st: State, key: Byte): State {
    var s := Swap(st.s, st.i, st.j);
    State((st.i + 255) % 256, (st.j + 512 - s[st.i] - key) % 256, s)
  }

  lemma {:induction false} SwapBack(s: Table, a: Byte, b: Byte)
    ensures Swap(Swap(s, a, b), a, b) == s
  {
  }

  /** A round is a bijection on all states, whatever the key byte. */
  lemma {:induction false} StepBijection(st: State, key: Byte)
    ensures Unstep(Step(st, key), key) == st && Step(Unstep(st, key), key) == st
  {
    StepBack(st, key);
    StepForth(st, key);
  }

  lemma {:induction false} StepBack(st: State, key: Byte)
    ensures Unstep(Step(st, key), key) == st
  {
    var n := Step(st, key);
    SwapBack(st.s, n.i, n.j);
    Wrap(st.j, st.s[n.i] + key);
    hide Swap;
  }

  lemma {:induction false} StepForth(st: State, key: Byte)
    ensures Step(Unstep(st, key), key) == st
  {
    var s := Swap(st.s, st.i, st.j);
    SwapBack(st.s, st.i, st.j);
    hide Swap;
    var p := Unstep(st, key);
    assert (p.i + 1) % 256 == st.i;
    Unwrap(st.j, s[st.i] + key);
  }

  lemma {:induction false} Wrap(j: Byte, d: int)
    requires 0 <= d <= 510
    ensures ((j + d) % 256 + 512 - d) % 256 == j
  {
  }

  lemma {:induction false} Unwrap(j: Byte, d: int)
    requires 0 <= d <= 510
    ensures ((j + 512 - d) % 256 + d) % 256 == j
  {
  }

  lemma {:induction false} SwapPermutes(s: Table, a: Byte, b: Byte)
    requires Permutation(s)
    ensures Permutation(Swap(s, a, b))
  {
    var t := Swap(s, a, b);
    forall v | 0 <= v < 256
      ensures v in t
    {
      assert v in s;
      var k :| 0 <= k < 256 && s[k] == v;
      assert t[if k == a then b else if k == b then a else k] == v;
    }
  }

  /** Rounds with the bytes of a key, over and over. */
  function Rounds(st: State, dat: seq<Byte>, n: nat): State
    requires dat != []
  {
    if n == 0 then st else Step(Rounds(st, dat, n - 1), dat[(n - 1) % |dat|])
  }

  function Unrounds(st: State, dat: seq<Byte>, n: nat): State
    requires dat != []
    decreases n
  {
    if n == 0 then st else Unrounds(Unstep(st, dat[(n - 1) % |dat|]), dat, n - 1)
  }

  /** No number of rounds loses information: two different states never meet. (With the key [0], these are the rounds
      of arc4_getbyte.) */
  lemma {:induction false} RoundsBijection(st: State, dat: seq<Byte>, n: nat)
    requires dat != []
    ensures Unrounds(Rounds(st, dat, n), dat, n) == st && Rounds(Unrounds(st, dat, n), dat, n) == st
    ensures Permutation(st.s) ==> Permutation(Rounds(st, dat, n).s)
    decreases n
  {
    hide Step, Unstep;
    if n > 0 {
      var k := dat[(n - 1) % |dat|];
      var m := Rounds(st, dat, n - 1);
      StepBijection(m, k);
      StepBijection(st, k);
      RoundsBijection(st, dat, n - 1);
      RoundsBijection(Unstep(st, k), dat, n - 1);
      if Permutation(st.s) { StepPermutes(m, k); }
    }
  }

  lemma {:induction false} StepPermutes(st: State, key: Byte)
    requires Permutation(st.s)
    ensures Permutation(Step(st, key).s)
  {
    var n := Step(st, key);
    SwapPermutes(st.s, n.i, n.j);
  }

  lemma {:induction false} Identity(t: Table)
    requires forall v :: 0 <= v < 256 ==> t[v] == v
    ensures Permutation(t)
  {
    forall v | 0 <= v < 256
      ensures v in t
    {
      assert t[v] == v;
    }
  }

  class Stream {
    var i: Byte
    var j: Byte
    const s: array<Byte>

    ghost predicate Valid()
      reads this, s
    {
      s.Length == 256 && Permutation(s[..])
    }

    ghost function Now(): State
      reads this, s
      requires s.Length == 256
    {
      State(i, j, s[..])
    }

    /** arc4_init */
    constructor ()
      ensures Valid() && fresh(s) && i == 0 && j == 0 && forall n :: 0 <= n < 256 ==> s[n] == n
    {
      s := new Byte[256];
      new;
      for n := 0 to 256
        invariant forall v :: 0 <= v < n ==> s[v] == v
      {
        s[n] := n;
      }
      i, j := 0, 0;
      Identity(s[..]);
    }

    /** The round that arc4_addrandom and arc4_getbyte share. */
    method Round(key: Byte)
      requires Valid()
      modifies this, s
      ensures Valid() && Now() == old(Step(Now(), key))
    {
      StepPermutes(Now(), key);
      hide Permutation;
      ghost var was := s[..];
      i := (i + 1) % 256;
      var si := s[i];
      j := (j + si + key) % 256;
      s[i] := s[j];
      s[j] := si;
      assert s[..] == Swap(was, i, j);
    }

    /** arc4_getbyte */
    method GetByte() returns (b: Byte)
      requires Valid()
      modifies this, s
      ensures Valid() && Now() == old(Step(Now(), 0)) && b == Output(Now())
    {
      hide Permutation;
      Round(0);
      b := s[((s[i] as int) + s[j]) % 256];
    }

    /** arc4_addrandom: 256 rounds with the data, starting at the place of i. */
    method AddRandom(dat: seq<Byte>)
      requires Valid() && dat != []
      modifies this, s
      ensures Valid() && i == j == (old(i) + 255) % 256
      ensures s[..] == Rounds(old(Now()).(i := (old(i) + 255) % 256), dat, 256).s
    {
      hide Permutation, Step;
      i := (i + 255) % 256;
      ghost var st := Now();
      for n := 0 to 256
        invariant Valid() && Now() == Rounds(st, dat, n)
      {
        Round(dat[n % |dat|]);
      }
      PlaceAfter(st, dat, 256);
      j := i;
    }

    /** arc4_getword: four bytes, the first the highest */
    method GetWord() returns (w: nat)
      requires Valid()
      modifies this, s
      ensures Valid() && Now() == Rounds(old(Now()), [0], 4) && w == Gathered(old(Now()), 4) < UINT32
    {
      hide Permutation, Step;
      ghost var st := Now();
      w := 0;
      for n := 0 to 4
        invariant Valid() && Now() == Rounds(st, [0], n) && w == Gathered(st, n)
      {
        var b := GetByte();
        w := w * 256 + b;
      }
      GatheredFits(st, 4);
      assert Pow256(4) == UINT32;
    }
  }

  /** The byte that a state puts out. */
  function Output(st: State): Byte {
    st.s[((st.s[st.i] as int) + st.s[st.j]) % 256]
  }

  /** The bytes of the first n rounds as one number. */
  function Gathered(st: State, n: nat): nat {
    if n == 0 then 0 else Gathered(st, n - 1) * 256 + Output(Rounds(st, [0], n))
  }

  lemma {:induction false} GatheredFits(st: State, n: nat)
    ensures Gathered(st, n) < Pow256(n)
  {
    if n > 0 { GatheredFits(st, n - 1); }
  }

  function Pow256(n: nat): nat {
    if n == 0 then 1 else 256 * Pow256(n - 1)
  }

  lemma {:induction false} PlaceAfter(st: State, dat: seq<Byte>, n: nat)
    requires dat != []
    ensures Rounds(st, dat, n).i == (st.i + n) % 256
  {
    hide Rounds;
    if n == 0 {
      NoRounds(st, dat);
    } else {
      NextPlace(st, dat, n);
      PlaceAfter(st, dat, n - 1);
      OneMore(st.i, n);
    }
  }

  lemma {:induction false} NoRounds(st: State, dat: seq<Byte>)
    requires dat != []
    ensures Rounds(st, dat, 0) == st
  {
  }

  lemma {:induction false} NextPlace(st: State, dat: seq<Byte>, n: nat)
    requires dat != [] && n > 0
    ensures Rounds(st, dat, n).i == (Rounds(st, dat, n - 1).i + 1) % 256
  {
  }

  lemma {:induction false} OneMore(a: nat, n: nat)
    requires n > 0
    ensures ((a + (n - 1)) % 256 + 1) % 256 == (a + n) % 256
  {
  }

  // ----- arc4random_uniform -----

  const UINT32: nat := 0x1_0000_0000

  /** The computation of `min` in 32-bit unsigned arithmetic. */
  function MinWord(bound: nat): nat
    requires 2 <= bound < UINT32
  {
    if bound > 0x8000_0000 then (1 + (UINT32 - 1 - bound)) % UINT32
    else ((UINT32 - 1 - bound * 2 % UINT32) + 1) % UINT32 % bound
  }

  lemma {:induction false} Bigger(k: int, b: nat)
    ensures k >= 1 ==> k * b >= b
    ensures k <= -1 ==> k * b <= -(b as int)
  {
    if k >= 1 {
      assert k * b == b + (k - 1) * b;
      assert (k - 1) * b >= 0;
    } else if k <= -1 {
      assert k * b == (k + 1) * b - b;
      assert (k + 1) * b <= 0;
    }
  }

  lemma {:induction false} LessMultiple(x: nat, k: nat, b: nat)
    requires b > 0 && k * b <= x
    ensures (x - k * b) % b == x % b
  {
    var y := x - k * b;
    var q, r := y / b, y % b;
    assert y == q * b + r;
    assert x == (q + k) * b + r by { assert (q + k) * b == q * b + k * b; }
    Remainder(x, q + k, b, r);
  }

  lemma {:induction false} Remainder(x: nat, q: nat, b: nat, r: nat)
    requires b > 0 && x == q * b + r && r < b
    ensures x % b == r && x / b == q
  {
    var p := x / b;
    assert x == p * b + x % b;
    Bigger(p - q, b);
    assert (p - q) * b == r - x % b;
  }

  lemma {:induction false} BelowHalf(bound: nat)
    requires 2 <= bound < 0x8000_0000
    ensures ((UINT32 - 1 - bound * 2 % UINT32) + 1) % UINT32 == UINT32 - 2 * bound
  {
  }

  /** Without 64-bit arithmetic, `min` is 2^32 modulo the bound. */
  lemma {:induction false} MinIsRemainder(bound: nat)
    requires 2 <= bound < UINT32
    ensures MinWord(bound) == UINT32 % bound
  {
    if bound > 0x8000_0000 {
      Remainder(UINT32, 1, bound, UINT32 - bound);
    } else if bound < 0x8000_0000 {
      BelowHalf(bound);
      var m := UINT32 - 2 * bound;
      assert MinWord(bound) == m % bound;
      hide MinWord;
      LessMultiple(UINT32, 2, bound);
    }
  }

  /** The words from m up to n that give the residue x. */
  ghost function Giving(m: nat, n: nat, bound: nat, x: nat): set<nat>
    requires bound > 0
  {
    set r | m <= r < n && r % bound == x
  }

  lemma {:induction false} OneInEach(m: nat, bound: nat, x: nat)
    requires x < bound
    ensures |Giving(m, m + bound, bound, x)| == 1
  {
    var r := NextWith(m, bound, x);
    forall y | m <= y < m + bound && y % bound == x
      ensures y == r
    {
      Apart(y, r, bound);
    }
    assert Giving(m, m + bound, bound, x) == {r};
  }

  /** The first word from m on with the residue x. */
  ghost function NextWith(m: nat, bound: nat, x: nat): (r: nat)
    requires x < bound
    ensures m <= r < m + bound && r % bound == x
  {
    var q, c := m / bound, m % bound;
    assert m == q * bound + c;
    assert (q + 1) * bound == q * bound + bound;
    var r := if c <= x then q * bound + x else (q + 1) * bound + x;
    Remainder(r, if c <= x then q else q + 1, bound, x);
    r
  }

  /** Two numbers with the same remainder are equal or at least the bound apart. */
  lemma {:induction false} Apart(y: nat, r: nat, bound: nat)
    requires bound > 0 && y % bound == r % bound && y < r + bound && r < y + bound
    ensures y == r
  {
    var p, q := y / bound, r / bound;
    assert y == p * bound + y % bound && r == q * bound + r % bound;
    Bigger(p - q, bound);
    assert (p - q) * bound == y - r;
  }

  lemma {:induction false} EqualShares(m: nat, k: nat, bound: nat, x: nat)
    requires x < bound
    ensures |Giving(m, m + k * bound, bound, x)| == k
  {
    if k == 0 {
      assert Giving(m, m + k * bound, bound, x) == {};
    } else {
      var mid := m + (k - 1) * bound;
      assert mid + bound == m + k * bound;
      var a, b := Giving(m, mid, bound, x), Giving(mid, mid + bound, bound, x);
      EqualShares(m, k - 1, bound, x);
      OneInEach(mid, bound, x);
      assert Giving(m, m + k * bound, bound, x) == a + b;
      assert a !! b;
    }
  }

  /** No bias: every residue is given by exactly the same number of accepted words, 2^32 / bound of them. */
  lemma {:induction false} NoModuloBias(bound: nat, x: nat)
    requires 2 <= bound < UINT32 && x < bound
    ensures |Giving(MinWord(bound), UINT32, bound, x)| == UINT32 / bound
  {
    MinIsRemainder(bound);
    assert UINT32 == UINT32 / bound * bound + UINT32 % bound;
    EqualShares(MinWord(bound), UINT32 / bound, bound, x);
  }

  /** arc4random_uniform on the words that arc4random would return: the first one that is not below `min` decides.
      `done` is false if none of the given words is accepted. */
  method Uniform(bound: nat, words: seq<nat>) returns (r: nat, used: nat, done: bool)
    requires bound < UINT32 && forall k :: 0 <= k < |words| ==> words[k] < UINT32
    ensures bound < 2 ==> r == 0 && done
    ensures bound >= 2 && done ==>
            0 < used <= |words| && words[used - 1] in Giving(UINT32 % bound, UINT32, bound, r) && r < bound
    ensures bound >= 2 ==>
            && used <= |words|
            && forall k :: 0 <= k < (if done then used - 1 else |words|) ==> words[k] < UINT32 % bound
  {
    r, used, done := 0, 0, true;
    if bound < 2 {
      return;
    }
    var min := MinWord(bound);
    MinIsRemainder(bound);
    hide MinWord;
    while used < |words|
      invariant used <= |words| && forall k :: 0 <= k < used ==> words[k] < min
    {
      used := used + 1;
      if words[used - 1] >= min {
        r := words[used - 1] % bound;
        return;
      }
    }
    done := false;
  }
}
