/**
 * xxHash, one-shot and streaming (util/xxhash.c). The word arithmetic of XXH32 and XXH64 is a parameter, so the
 * results hold for any rounds; XxHashWords supplies the two real ones.
 */
module XxHash {
  import opened Arithmetic
  import opened Collections

  type Byte = bv8

  const TWO_32: nat := 0x1_0000_0000
  const TWO_64: nat := 0x1_0000_0000_0000_0000

  /** The four accumulators. */
  datatype Lanes<W> = Lanes(v1: W, v2: W, v3: W, v4: W)

  /** Word size in bytes, the size of the short tail group (0 if none), and the arithmetic on words. */
  datatype Algorithm<!W> = Algorithm(
    word: nat, half: nat,
    init1: W -> W, init2: W -> W, init4: W -> W,
    read: seq<Byte> -> W, round: (W, W) -> W,
    converge: Lanes<W> -> W, short: W -> W, addLength: (W, nat) -> W,
    mixWord: (W, seq<Byte>) -> W, mixHalf: (W, seq<Byte>) -> W, mixByte: (W, Byte) -> W,
    avalanche: W -> W)
  {
    predicate WellFormed() { word >= 2 && (half == 0 || 2 * half == word) }

    function Stripe(): nat { 4 * word }

    function InitialLanes(seed: W): Lanes<W> {
      Lanes(init1(seed), init2(seed), seed, init4(seed))
    }

    function ConsumeStripe(l: Lanes<W>, s: seq<Byte>): Lanes<W>
      requires |s| == Stripe()
    {
      Lanes(round(l.v1, read(s[..word])), round(l.v2, read(s[word..2 * word])),
            round(l.v3, read(s[2 * word..3 * word])), round(l.v4, read(s[3 * word..])))
    }

    /** Consume every whole stripe, front to back. */
    function Stripes(l: Lanes<W>, s: seq<Byte>): Lanes<W>
      requires WellFormed()
      decreases |s|
    {
      if |s| < Stripe() then l else Stripes(ConsumeStripe(l, s[..Stripe()]), s[Stripe()..])
    }

    /** What is left after the whole stripes. */
    function Leftover(s: seq<Byte>): (r: seq<Byte>)
      requires WellFormed()
      ensures |r| < Stripe() && |r| <= |s|
      decreases |s|
    {
      if |s| < Stripe() then s else Leftover(s[Stripe()..])
    }

    /** The remaining input: whole words, then at most one half word, then single bytes. */
    function Tail(h: W, s: seq<Byte>): W
      requires WellFormed()
      decreases |s|
    {
      if |s| >= word then Tail(mixWord(h, s[..word]), s[word..])
      else if half > 0 && |s| >= half then Tail(mixHalf(h, s[..half]), s[half..])
      else if |s| >= 1 then Tail(mixByte(h, s[0]), s[1..])
      else h
    }

    /** Length, tail and avalanche, from the converged accumulator. */
    function Finish(h: W, length: nat, rest: seq<Byte>): W
      requires WellFormed()
    {
      avalanche(Tail(addLength(h, length), rest))
    }

    /** The hash of `s`, as the algorithm describes it; the length enters modulo the word. */
    function HashOf(seed: W, s: seq<Byte>, modulus: nat): W
      requires WellFormed() && modulus > 0
    {
      var h := if |s| >= Stripe() then converge(Stripes(InitialLanes(seed), s)) else short(seed);
      Finish(h, |s| % modulus, Leftover(s))
    }

    /** `l` and `rest` are what is known after `s`. */
    ghost predicate Holds(seed: W, s: seq<Byte>, l: Lanes<W>, rest: seq<Byte>)
      requires WellFormed()
    {
      l == Stripes(InitialLanes(seed), s) && rest == Leftover(s)
    }

    /** Input split anywhere: what is left of the first part is carried in front of the second. */
    lemma {:induction false} SplitAnywhere(l: Lanes<W>, a: seq<Byte>, b: seq<Byte>)
      requires WellFormed()
      ensures Stripes(l, a + b) == Stripes(Stripes(l, a), Leftover(a) + b)
      ensures Leftover(a + b) == Leftover(Leftover(a) + b)
      decreases |a|
    {
      if |a| >= Stripe() {
        assert (a + b)[..Stripe()] == a[..Stripe()] && (a + b)[Stripe()..] == a[Stripe()..] + b;
        SplitAnywhere(ConsumeStripe(l, a[..Stripe()]), a[Stripe()..], b);
      }
    }
  }

  // ----- Loops shared by the one-shot and streaming forms -----

  /** The stripe loop: a do-while over a moving position `p`. */
  method StripeLoop<W>(a: Algorithm<W>, start: Lanes<W>, s: seq<Byte>, p0: nat) returns (l: Lanes<W>, p: nat)
    requires a.WellFormed() && p0 + a.Stripe() <= |s|
    ensures l == a.Stripes(start, s[p0..])
    ensures p0 <= p <= |s| && s[p..] == a.Leftover(s[p0..])
  {
    l, p := start, p0;
    var stripe := a.Stripe();
    var limit := |s| - stripe;
    var again := true;
    while again
      invariant p0 <= p <= |s|
      invariant again == (p <= limit)
      invariant a.Stripes(l, s[p..]) == a.Stripes(start, s[p0..])
      invariant a.Leftover(s[p..]) == a.Leftover(s[p0..])
      decreases |s| - p
    {
      assert s[p..][..stripe] == s[p..p + stripe] && s[p..][stripe..] == s[p + stripe..];
      l := a.ConsumeStripe(l, s[p..p + stripe]);
      p := p + stripe;
      again := p <= limit;
    }
  }

  method TailLoop<W>(a: Algorithm<W>, start: W, s: seq<Byte>) returns (h: W)
    requires a.WellFormed()
    ensures h == a.Tail(start, s)
  {
    h := start;
    var p := 0;
    while p + a.word <= |s|
      invariant 0 <= p <= |s|
      invariant a.Tail(h, s[p..]) == a.Tail(start, s)
    {
      assert s[p..][..a.word] == s[p..p + a.word] && s[p..][a.word..] == s[p + a.word..];
      h := a.mixWord(h, s[p..p + a.word]);
      p := p + a.word;
    }
    if a.half > 0 && p + a.half <= |s| {
      assert s[p..][..a.half] == s[p..p + a.half] && s[p..][a.half..] == s[p + a.half..];
      h := a.mixHalf(h, s[p..p + a.half]);
      p := p + a.half;
    }
    while p < |s|
      invariant 0 <= p <= |s| < p + a.word
      invariant a.half > 0 ==> |s| < p + a.half
      invariant a.Tail(h, s[p..]) == a.Tail(start, s)
    {
      assert s[p..][0] == s[p] && s[p..][1..] == s[p + 1..];
      h := a.mixByte(h, s[p]);
      p := p + 1;
    }
  }

  // ----- One-shot -----

  method OneShot<W>(a: Algorithm<W>, seed: W, input: seq<Byte>, modulus: nat) returns (h: W)
    requires a.WellFormed() && modulus > 0
    ensures h == a.HashOf(seed, input, modulus)
  {
    var p := 0;
    assert input[0..] == input;
    if |input| >= a.Stripe() {
      var l;
      l, p := StripeLoop(a, a.InitialLanes(seed), input, 0);
      h := a.converge(l);
    } else {
      h := a.short(seed);
    }
    h := a.addLength(h, |input| % modulus);
    h := TailLoop(a, h, input[p..]);
    h := a.avalanche(h);
  }

  // ----- The hash, group by group -----

  lemma {:induction false} StripesFront<W>(a: Algorithm<W>, l: Lanes<W>, s: seq<Byte>, rest: seq<Byte>)
    requires a.WellFormed() && |s| == a.Stripe()
    ensures a.Stripes(l, s + rest) == a.Stripes(a.ConsumeStripe(l, s), rest)
    ensures a.Leftover(s + rest) == a.Leftover(rest)
  {
    assert (s + rest)[..|s|] == s && (s + rest)[|s|..] == rest;
  }

  /** A stripe is one word for each lane, in order. */
  lemma {:induction false} FourWords<W>(
    a: Algorithm<W>, l: Lanes<W>, w1: seq<Byte>, w2: seq<Byte>, w3: seq<Byte>, w4: seq<Byte>)
    requires a.WellFormed() && |w1| == |w2| == |w3| == |w4| == a.word
    ensures a.ConsumeStripe(l, (w1 + w2) + (w3 + w4)) ==
      Lanes(a.round(l.v1, a.read(w1)), a.round(l.v2, a.read(w2)), a.round(l.v3, a.read(w3)), a.round(l.v4, a.read(w4)))
  {
    var n, s := a.word, (w1 + w2) + (w3 + w4);
    assert s[..n] == w1 && s[n..2 * n] == w2 && s[2 * n..3 * n] == w3 && s[3 * n..] == w4;
  }

  // ----- What a lane holds -----

  /** Word `i` of the input. */
  function WordAt(word: nat, s: seq<Byte>, i: nat): seq<Byte> {
    var from := i * word;
    if 0 <= from <= from + word <= |s| then s[from..from + word] else []
  }

  /** What lane `j` reads in `n` stripes: words j, j + 4, j + 8 and so on. */
  function LaneWords<W>(a: Algorithm<W>, s: seq<Byte>, j: nat, n: nat): seq<W> {
    seq(n, i requires 0 <= i < n => a.read(WordAt(a.word, s, 4 * i + j)))
  }

  /** The words taken in one after the other. */
  function Rounds<W>(a: Algorithm<W>, acc: W, words: seq<W>): W {
    if words == [] then acc else Rounds(a, a.round(acc, words[0]), words[1..])
  }

  function StripeCount<W>(a: Algorithm<W>, s: seq<Byte>): nat
    requires a.WellFormed()
  {
    Div(|s|, 4 * a.word)
  }

  /** For every input, each lane is the fold of its own words, from its own start. */
  lemma {:induction false} LanesAreFolds<W>(a: Algorithm<W>, l: Lanes<W>, s: seq<Byte>)
    requires a.WellFormed()
    ensures var n, r := StripeCount(a, s), a.Stripes(l, s);
      && r.v1 == Rounds(a, l.v1, LaneWords(a, s, 0, n)) && r.v2 == Rounds(a, l.v2, LaneWords(a, s, 1, n))
      && r.v3 == Rounds(a, l.v3, LaneWords(a, s, 2, n)) && r.v4 == Rounds(a, l.v4, LaneWords(a, s, 3, n))
    decreases |s|
  {
    var stripe, n := a.Stripe(), StripeCount(a, s);
    if |s| < stripe {
      DivisionUnique(|s|, stripe, 0, |s|);
    } else {
      DivisionSteps(|s|, stripe);
      LanesAreFolds(a, a.ConsumeStripe(l, s[..stripe]), s[stripe..]);
      FirstWords(a, s);
      LaneStep(a, s, 0, n); LaneStep(a, s, 1, n); LaneStep(a, s, 2, n); LaneStep(a, s, 3, n);
    }
  }

  lemma {:induction false} FirstWords<W>(a: Algorithm<W>, s: seq<Byte>)
    requires a.WellFormed() && |s| >= a.Stripe()
    ensures var t := s[..a.Stripe()];
      && WordAt(a.word, s, 0) == t[..a.word] && WordAt(a.word, s, 1) == t[a.word..2 * a.word]
      && WordAt(a.word, s, 2) == t[2 * a.word..3 * a.word] && WordAt(a.word, s, 3) == t[3 * a.word..]
  {
  }

  /** A stripe takes one word off the front of each lane's. */
  lemma {:induction false} LaneStep<W>(a: Algorithm<W>, s: seq<Byte>, j: nat, n: nat)
    requires a.WellFormed() && |s| >= a.Stripe() && n > 0
    ensures LaneWords(a, s, j, n)[0] == a.read(WordAt(a.word, s, j))
    ensures LaneWords(a, s, j, n)[1..] == LaneWords(a, s[a.Stripe()..], j, n - 1)
  {
    forall i: nat | i < n - 1
      ensures WordAt(a.word, s, 4 * (i + 1) + j) == WordAt(a.word, s[a.Stripe()..], 4 * i + j)
    {
      WordShifts(a.word, s, 4 * i + j);
    }
  }

  lemma {:induction false} WordShifts(word: nat, s: seq<Byte>, i: nat)
    requires |s| >= 4 * word
    ensures WordAt(word, s, i + 4) == WordAt(word, s[4 * word..], i)
  {
    var from := i * word;
    assert (i + 4) * word == from + 4 * word;
    assert from >= 0;
    if from + word <= |s| - 4 * word {
      assert s[4 * word..][from..from + word] == s[from + 4 * word..from + 4 * word + word];
    }
  }

  lemma {:induction false} TailWord<W>(a: Algorithm<W>, h: W, w: seq<Byte>, rest: seq<Byte>)
    requires a.WellFormed() && |w| == a.word
    ensures a.Tail(h, w + rest) == a.Tail(a.mixWord(h, w), rest)
  {
    assert (w + rest)[..|w|] == w && (w + rest)[|w|..] == rest;
  }

  lemma {:induction false} TailHalf<W>(a: Algorithm<W>, h: W, w: seq<Byte>, rest: seq<Byte>)
    requires a.WellFormed() && |w| == a.half > 0 && |w + rest| < a.word
    ensures a.Tail(h, w + rest) == a.Tail(a.mixHalf(h, w), rest)
  {
    assert (w + rest)[..|w|] == w && (w + rest)[|w|..] == rest;
  }

  lemma {:induction false} TailByte<W>(a: Algorithm<W>, h: W, b: Byte, rest: seq<Byte>)
    requires a.WellFormed() && |rest| + 1 < a.word && (a.half > 0 ==> |rest| + 1 < a.half)
    ensures a.Tail(h, [b] + rest) == a.Tail(a.mixByte(h, b), rest)
  {
    assert ([b] + rest)[1..] == rest;
  }

  lemma {:induction false} LastThree<W>(a: Algorithm<W>, h: W, x: Byte, y: Byte, z: Byte)
    requires a.WellFormed() && a.word > 3 && (a.half > 0 ==> a.half > 3)
    ensures a.Tail(h, [x, y, z]) == a.mixByte(a.mixByte(a.mixByte(h, x), y), z)
  {
    assert [x, y, z] == [x] + [y, z] && [y, z] == [y] + [z] && [z] == [z] + [];
    TailByte(a, h, x, [y, z]);
    TailByte(a, a.mixByte(h, x), y, [z]);
    TailByte(a, a.mixByte(a.mixByte(h, x), y), z, []);
  }

  // ----- Streaming -----

  datatype Status = OK | ERROR

  /** Lanes plus the bytes of an unfinished stripe: the part of the state the two variants share. */
  class Buffer<W> {
    const a: Algorithm<W>
    const mem: array<Byte>
    var lanes: Lanes<W>
    var memsize: nat

    ghost var seed: W
    ghost var data: seq<Byte>  // everything fed so far

    ghost predicate Valid()
      reads this, mem
    {
      && a.WellFormed()
      && mem.Length == a.Stripe()
      && memsize < a.Stripe()
      && a.Holds(seed, data, lanes, mem[..memsize])
    }

    constructor (algorithm: Algorithm<W>, s: W)
      requires algorithm.WellFormed()
      ensures Valid() && fresh(mem) && data == [] && seed == s && a == algorithm
    {
      a := algorithm;
      mem := new Byte[algorithm.Stripe()](_ => 0);
      lanes, memsize := algorithm.InitialLanes(s), 0;
      seed, data := s, [];
    }

    method Reset(s: W)
      requires Valid()
      modifies this, mem
      ensures Valid() && seed == s && data == []
    {
      for i := 0 to mem.Length {
        mem[i] := 0;
      }
      lanes, memsize := a.InitialLanes(s), 0;
      seed, data := s, [];
    }

    /** memcpy of `bytes` into the buffer at `at`. */
    method Copy(at: nat, bytes: seq<Byte>)
      requires at + |bytes| <= mem.Length
      modifies mem
      ensures mem[..at + |bytes|] == old(mem[..at]) + bytes
    {
      for i := 0 to |bytes|
        invariant mem[..at + i] == old(mem[..at]) + bytes[..i]
      {
        mem[at + i] := bytes[i];
      }
    }

    /** Complete the buffered stripe from the front of `bytes`. */
    method CompletePending(bytes: seq<Byte>) returns (p: nat)
      requires a.WellFormed() && mem.Length == a.Stripe()
      requires 0 < memsize < a.Stripe() <= memsize + |bytes|
      modifies this`lanes, this`memsize, mem
      ensures p == a.Stripe() - old(memsize) && memsize == 0
      ensures lanes == a.ConsumeStripe(old(lanes), old(mem[..memsize]) + bytes[..p])
    {
      var stripe := a.Stripe();
      p := stripe - memsize;
      ghost var filled := mem[..memsize] + bytes[..p];
      Copy(memsize, bytes[..p]);
      assert mem[..] == mem[..stripe] == filled;
      lanes := a.ConsumeStripe(lanes, mem[..]);
      memsize := 0;
    }

    /** Consume the whole stripes of `bytes` from `p0` and buffer the rest. */
    method ConsumeFrom(bytes: seq<Byte>, p0: nat)
      requires a.WellFormed() && mem.Length == a.Stripe() && memsize == 0 && p0 <= |bytes|
      modifies this`lanes, this`memsize, mem
      ensures lanes == a.Stripes(old(lanes), bytes[p0..])
      ensures memsize < a.Stripe() && mem[..memsize] == a.Leftover(bytes[p0..])
    {
      var p := p0;
      if p + a.Stripe() <= |bytes| {
        lanes, p := StripeLoop(a, lanes, bytes, p);
      }
      ghost var rest := bytes[p..];
      assert rest == a.Leftover(bytes[p0..]);
      if p < |bytes| {
        Copy(0, bytes[p..]);
        memsize := |bytes| - p;
        assert mem[..0] == [] && memsize == |rest|;
      }
      assert mem[..memsize] == rest;
    }

    method Feed(bytes: seq<Byte>)
      requires Valid()
      modifies this, mem
      ensures Valid() && seed == old(seed) && data == old(data) + bytes
    {
      ghost var pending := mem[..memsize];
      a.SplitAnywhere(a.InitialLanes(seed), data, bytes);
      data := data + bytes;
      if memsize + |bytes| < a.Stripe() {  // fill in the buffer
        Copy(memsize, bytes);
        memsize := memsize + |bytes|;
        return;
      }
      var p := 0;
      if memsize > 0 {
        p := CompletePending(bytes);
        assert (pending + bytes)[..a.Stripe()] == pending + bytes[..p];
        assert (pending + bytes)[a.Stripe()..] == bytes[p..];
      } else {
        assert pending + bytes == bytes[p..];
      }
      ConsumeFrom(bytes, p);
    }
  }

  class State64<W> {
    const buffer: Buffer<W>
    var totalLen: nat

    ghost predicate Valid()
      reads this, buffer, buffer.mem
    {
      buffer.Valid() && totalLen == |buffer.data| % TWO_64
    }

    constructor (algorithm: Algorithm<W>, seed: W)
      requires algorithm.WellFormed()
      ensures Valid() && fresh(buffer) && fresh(buffer.mem)
      ensures buffer.a == algorithm && buffer.seed == seed && buffer.data == []
    {
      buffer := new Buffer(algorithm, seed);
      totalLen := 0;
    }

    method Reset(seed: W)
      requires Valid()
      modifies this, buffer, buffer.mem
      ensures Valid() && buffer.seed == seed && buffer.data == []
    {
      buffer.Reset(seed);
      totalLen := 0;
    }

    /** A null input is an error and changes nothing. */
    method Update(input: Option<seq<Byte>>) returns (status: Status)
      requires Valid()
      modifies this, buffer, buffer.mem
      ensures Valid() && buffer.seed == old(buffer.seed)
      ensures input.None? ==> status == ERROR && buffer.data == old(buffer.data)
      ensures input.Some? ==> status == OK && buffer.data == old(buffer.data) + input.value
    {
      if input.None? { return ERROR; }
      ghost var total := |buffer.data| + |input.value|;
      totalLen := (totalLen + |input.value|) % TWO_64;
      assert totalLen == total % TWO_64;
      buffer.Feed(input.value);
      assert |buffer.data| == total;
      return OK;
    }

    /** The one-shot hash of everything fed; a length wrapped to less than a stripe has lane 3 taken for the seed. */
    method Digest() returns (h: W)
      requires Valid()
      ensures |buffer.data| < TWO_64 || |buffer.data| % TWO_64 >= buffer.a.Stripe() ==>
        h == buffer.a.HashOf(buffer.seed, buffer.data, TWO_64)
      ensures |buffer.data| >= TWO_64 && |buffer.data| % TWO_64 < buffer.a.Stripe() ==>
        var a := buffer.a;
        h == a.Finish(a.short(a.Stripes(a.InitialLanes(buffer.seed), buffer.data).v3), |buffer.data| % TWO_64,
                      a.Leftover(buffer.data))
    {
      var a := buffer.a;
      if totalLen >= a.Stripe() {
        h := a.converge(buffer.lanes);
      } else {
        h := a.short(buffer.lanes.v3);
      }
      h := a.addLength(h, totalLen);
      h := TailLoop(a, h, buffer.mem[..buffer.memsize]);
      h := a.avalanche(h);
    }
  }

  /** The wrapped length of a run extended by `len` bytes. */
  function Extend32(total32: nat, len: nat): nat { (total32 + len % TWO_32) % TWO_32 }

  /** The wrapped length follows the true total, and one sticky bit is enough to know that a stripe was seen. */
  lemma StickyLength(total: nat, len: nat, stripe: nat)
    requires 2 * stripe <= TWO_32
    ensures Extend32(total % TWO_32, len) == (total + len) % TWO_32
    ensures total >= stripe || len >= stripe || Extend32(total % TWO_32, len) >= stripe <==> total + len >= stripe
  {
    assert (total % TWO_32 + len % TWO_32) % TWO_32 == (total + len) % TWO_32;
  }

  class State32<W> {
    const buffer: Buffer<W>
    var totalLen32: nat
    var largeLen: bool

    ghost predicate Valid()
      reads this, buffer, buffer.mem
    {
      && buffer.Valid()
      && 2 * buffer.a.Stripe() <= TWO_32
      && totalLen32 == |buffer.data| % TWO_32
      && largeLen == (|buffer.data| >= buffer.a.Stripe())
    }

    constructor (algorithm: Algorithm<W>, seed: W)
      requires algorithm.WellFormed() && 2 * algorithm.Stripe() <= TWO_32
      ensures Valid() && fresh(buffer) && fresh(buffer.mem)
      ensures buffer.a == algorithm && buffer.seed == seed && buffer.data == []
    {
      buffer := new Buffer(algorithm, seed);
      totalLen32, largeLen := 0, false;
    }

    method Reset(seed: W)
      requires Valid()
      modifies this, buffer, buffer.mem
      ensures Valid() && buffer.seed == seed && buffer.data == []
    {
      buffer.Reset(seed);
      totalLen32, largeLen := 0, false;
    }

    method Update(input: Option<seq<Byte>>) returns (status: Status)
      requires Valid()
      modifies this, buffer, buffer.mem
      ensures Valid() && buffer.seed == old(buffer.seed)
      ensures input.None? ==> status == ERROR && buffer.data == old(buffer.data)
      ensures input.Some? ==> status == OK && buffer.data == old(buffer.data) + input.value
    {
      if input.None? { return ERROR; }
      var len, stripe := |input.value|, buffer.a.Stripe();
      ghost var total := |buffer.data| + len;
      assert Extend32(totalLen32, len) == total % TWO_32
        && (largeLen || len >= stripe || Extend32(totalLen32, len) >= stripe) == (total >= stripe)
      by {
        StickyLength(|buffer.data|, len, stripe);
      }
      totalLen32 := Extend32(totalLen32, len);
      largeLen := largeLen || len >= stripe || totalLen32 >= stripe;
      buffer.Feed(input.value);
      assert |buffer.data| == total;
      return OK;
    }

    /** The one-shot hash of everything fed, however long: `largeLen` survives the wrap of the 32-bit length. */
    method Digest() returns (h: W)
      requires Valid()
      ensures h == buffer.a.HashOf(buffer.seed, buffer.data, TWO_32)
    {
      var a := buffer.a;
      if largeLen {
        h := a.converge(buffer.lanes);
      } else {
        h := a.short(buffer.lanes.v3);
      }
      h := a.addLength(h, totalLen32);
      h := TailLoop(a, h, buffer.mem[..buffer.memsize]);
      h := a.avalanche(h);
    }
  }

  // ----- Any chunking -----

  function Flatten(chunks: seq<seq<Byte>>): seq<Byte> {
    if chunks == [] then [] else chunks[0] + Flatten(chunks[1..])
  }

  lemma {:induction false} FlattenSnoc(chunks: seq<seq<Byte>>, c: seq<Byte>)
    ensures Flatten(chunks + [c]) == Flatten(chunks) + c
  {
    if chunks != [] {
      assert (chunks + [c])[1..] == chunks[1..] + [c];
      FlattenSnoc(chunks[1..], c);
    }
  }

  /** reset; update for each chunk; digest. */
  method Stream64<W>(a: Algorithm<W>, seed: W, chunks: seq<seq<Byte>>) returns (h: W)
    requires a.WellFormed() && |Flatten(chunks)| < TWO_64
    ensures h == a.HashOf(seed, Flatten(chunks), TWO_64)
  {
    var state := new State64(a, seed);
    state.Reset(seed);
    for i := 0 to |chunks|
      invariant state.Valid() && fresh(state) && fresh(state.buffer) && fresh(state.buffer.mem)
      invariant state.buffer.a == a && state.buffer.seed == seed && state.buffer.data == Flatten(chunks[..i])
    {
      var _ := state.Update(Some(chunks[i]));
      FlattenSnoc(chunks[..i], chunks[i]);
      assert chunks[..i + 1] == chunks[..i] + [chunks[i]];
    }
    assert chunks[..|chunks|] == chunks;
    h := state.Digest();
  }

  method Stream32<W>(a: Algorithm<W>, seed: W, chunks: seq<seq<Byte>>) returns (h: W)
    requires a.WellFormed() && 2 * a.Stripe() <= TWO_32
    ensures h == a.HashOf(seed, Flatten(chunks), TWO_32)
  {
    var state := new State32(a, seed);
    state.Reset(seed);
    for i := 0 to |chunks|
      invariant state.Valid() && fresh(state) && fresh(state.buffer) && fresh(state.buffer.mem)
      invariant state.buffer.a == a && state.buffer.seed == seed && state.buffer.data == Flatten(chunks[..i])
    {
      var _ := state.Update(Some(chunks[i]));
      FlattenSnoc(chunks[..i], chunks[i]);
      assert chunks[..i + 1] == chunks[..i] + [chunks[i]];
    }
    assert chunks[..|chunks|] == chunks;
    h := state.Digest();
  }
}
