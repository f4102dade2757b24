/**
 The standard library's staleness hash: FNV-1a over 8-byte words with the chunk's length in
 front, computed once by the build script and again at run time. 64-bit words are natural
 numbers below 2^64, and the multiplication wraps.
 */
module TreeHash {
  import opened Wrappers
  import opened Utf8
  import opened Archive

  const WORDS: nat := 0x1_0000_0000_0000_0000

  type word = n: nat | n < 0x1_0000_0000_0000_0000

  const OFFSET: word := 0xcbf2_9ce4_8422_2325
  const PRIME: nat := 0x0000_0100_0000_01b3

  // ----- exclusive or ----------------------------------------------------------------------------

  function XorBit(a: nat, b: nat): nat {
    if a % 2 == b % 2 then 0 else 1
  }

  function XorNat(a: nat, b: nat): nat {
    if a == 0 && b == 0 then 0 else XorBit(a, b) + 2 * XorNat(a / 2, b / 2)
  }

  function Pow2(k: nat): nat {
    if k == 0 then 1 else 2 * Pow2(k - 1)
  }

  lemma {:induction false} XorIsSmall(a: nat, b: nat, k: nat)
    requires a < Pow2(k) && b < Pow2(k)
    ensures XorNat(a, b) < Pow2(k)
  {
    if k > 0 {
      XorIsSmall(a / 2, b / 2, k - 1);
    }
  }

  lemma {:induction false} XorTwice(a: nat, b: nat)
    ensures XorNat(XorNat(a, b), b) == a
    decreases a + b
  {
    if a != 0 || b != 0 {
      XorTwice(a / 2, b / 2);
      var x := XorNat(a, b);
      assert x % 2 == XorBit(a, b) && x / 2 == XorNat(a / 2, b / 2);
      assert XorNat(x, b) == XorBit(x, b) + 2 * XorNat(x / 2, b / 2);
    }
  }

  lemma {:induction false} XorCommutes(a: nat, b: nat)
    ensures XorNat(a, b) == XorNat(b, a)
    decreases a + b
  {
    if a != 0 || b != 0 {
      XorCommutes(a / 2, b / 2);
    }
  }

  lemma Pow2Byte(k: nat)
    ensures Pow2(k + 8) == 256 * Pow2(k)
  {
    assert Pow2(k + 2) == 4 * Pow2(k);
    assert Pow2(k + 4) == 16 * Pow2(k);
    assert Pow2(k + 6) == 64 * Pow2(k);
  }

  lemma WordIsPow2()
    ensures Pow2(64) == WORDS
  {
    assert Pow2(0) == 1;
    Pow2Byte(0);
    Pow2Byte(8);
    Pow2Byte(16);
    Pow2Byte(24);
    Pow2Byte(32);
    Pow2Byte(40);
    Pow2Byte(48);
    Pow2Byte(56);
  }

  function Xor(a: word, b: word): word {
    WordIsPow2();
    XorIsSmall(a, b, 64);
    XorNat(a, b)
  }

  // ----- wrapping multiplication ----------------------------------------------------------------

  /** The inverse of the prime modulo 2^64. */
  const INVERSE: nat := 0xce96_5057_aff6_957b
  /** How often their product wraps: PRIME * INVERSE == 1 + 2^64 * WRAPS. */
  const WRAPS: nat := 0xce_9650_590f

  function Times(h: word): word {
    h * PRIME % WORDS
  }

  function Untimes(h: word): word {
    h * INVERSE % WORDS
  }

  lemma Reduce(x: int, h: word, t: int)
    requires x == h + WORDS * t
    ensures x % WORDS == h
  {
  }

  lemma UntimesTimes(h: word)
    ensures Untimes(Times(h)) == h
  {
    var d, r := h * PRIME / WORDS, Times(h);
    assert h * PRIME == WORDS * d + r;
    assert r * INVERSE == h + WORDS * (WRAPS * h - INVERSE * d);
    Reduce(r * INVERSE, h, WRAPS * h - INVERSE * d);
  }

  lemma TimesUntimes(h: word)
    ensures Times(Untimes(h)) == h
  {
    var d, r := h * INVERSE / WORDS, Untimes(h);
    assert h * INVERSE == WORDS * d + r;
    assert r * PRIME == h + WORDS * (WRAPS * h - PRIME * d);
    Reduce(r * PRIME, h, WRAPS * h - PRIME * d);
  }

  // ----- one step, and a run of them ----------------------------------------------------------------

  function Mix(h: word, limb: word): word {
    Times(Xor(h, limb))
  }

  function Unmix(h: word, limb: word): word {
    Xor(Untimes(h), limb)
  }

  lemma UnmixMix(h: word, limb: word)
    ensures Unmix(Mix(h, limb), limb) == h
  {
    UntimesTimes(Xor(h, limb));
    XorTwice(h, limb);
  }

  lemma MixUnmix(h: word, limb: word)
    ensures Mix(Unmix(h, limb), limb) == h
  {
    XorTwice(Untimes(h), limb);
    TimesUntimes(h);
  }

  /** From one state, different limbs lead to different states. */
  lemma MixTellsLimbs(h: word, a: word, b: word)
    ensures Mix(h, a) == Mix(h, b) <==> a == b
  {
    UntimesTimes(Xor(h, a));
    UntimesTimes(Xor(h, b));
    XorCommutes(h, a);
    XorCommutes(h, b);
    XorTwice(a, h);
    XorTwice(b, h);
  }

  /** Steps over a list, from a state. */
  function Fold<T>(step: (word, T) -> word, h: word, items: seq<T>): word {
    if items == [] then h else step(Fold(step, h, items[..|items| - 1]), items[|items| - 1])
  }

  function Unfold<T>(unstep: (word, T) -> word, h: word, items: seq<T>): word
    decreases |items|
  {
    if items == [] then h else Unfold(unstep, unstep(h, items[|items| - 1]), items[..|items| - 1])
  }

  ghost predicate Inverse<T(!new)>(step: (word, T) -> word, unstep: (word, T) -> word) {
    forall h, x :: unstep(step(h, x), x) == h && step(unstep(h, x), x) == h
  }

  lemma {:induction false} FoldsInvert<T(!new)>(step: (word, T) -> word, unstep: (word, T) -> word, h: word, items: seq<T>)
    requires Inverse(step, unstep)
    ensures Unfold(unstep, Fold(step, h, items), items) == h && Fold(step, Unfold(unstep, h, items), items) == h
    decreases |items|
  {
    if items != [] {
      var front, last := items[..|items| - 1], items[|items| - 1];
      FoldsInvert(step, unstep, h, front);
      FoldsInvert(step, unstep, unstep(h, last), front);
    }
  }

  lemma FoldNext<T>(step: (word, T) -> word, h: word, items: seq<T>, i: nat)
    requires i < |items|
    ensures Fold(step, h, items[..i + 1]) == step(Fold(step, h, items[..i]), items[i])
  {
    assert items[..i + 1][..i] == items[..i];
  }

  /** The step keeps different states different. */
  ghost predicate TellsStates<T(!new)>(step: (word, T) -> word) {
    forall g, h, x :: g != h ==> step(g, x) != step(h, x)
  }

  lemma {:induction false} FoldTellsStates<T(!new)>(step: (word, T) -> word, g: word, h: word, items: seq<T>)
    requires TellsStates(step) && g != h
    ensures Fold(step, g, items) != Fold(step, h, items)
  {
    if items != [] {
      FoldTellsStates(step, g, h, items[..|items| - 1]);
    }
  }

  /** Lists that differ in one item, one the step notices in every state, lead to different states. */
  lemma {:induction false} OneItemShows<T(!new)>(step: (word, T) -> word, h: word, a: seq<T>, b: seq<T>, i: nat)
    requires TellsStates(step) && |a| == |b| && i < |a|
    requires forall g :: step(g, a[i]) != step(g, b[i])
    requires forall j :: 0 <= j < |a| && j != i ==> a[j] == b[j]
    ensures Fold(step, h, a) != Fold(step, h, b)
    decreases |a|
  {
    var last := |a| - 1;
    if i == last {
      assert a[..last] == b[..last];
    } else {
      OneItemShows(step, h, a[..last], b[..last], i);
    }
  }

  lemma MixTellsStates()
    ensures Inverse(Mix, Unmix) && TellsStates(Mix)
  {
    forall h: word, limb: word ensures Unmix(Mix(h, limb), limb) == h && Mix(Unmix(h, limb), limb) == h {
      UnmixMix(h, limb);
      MixUnmix(h, limb);
    }
    forall g: word, h: word, limb: word | g != h ensures Mix(g, limb) != Mix(h, limb) {
      UnmixMix(g, limb);
      UnmixMix(h, limb);
    }
  }

  // ----- a chunk as limbs --------------------------------------------------------------------------------

  function WordAt(chunk: seq<byte>, k: nat): word
    requires 8 * k + 8 <= |chunk|
  {
    LeOfFromLe(chunk[8 * k..8 * k + 8]);
    Ranges();
    FromLe(chunk[8 * k..8 * k + 8])
  }

  /** The length, the full words, then the bytes that are left. */
  function Limbs(chunk: seq<byte>): seq<word> {
    var full := |chunk| / 8;
    [|chunk| % WORDS] + seq(full, k requires 0 <= k < full => WordAt(chunk, k)) + chunk[8 * full..]
  }

  function MixedChunk(h: word, chunk: seq<byte>): word {
    Fold(Mix, h, Limbs(chunk))
  }

  function UnmixedChunk(h: word, chunk: seq<byte>): word {
    Unfold(Unmix, h, Limbs(chunk))
  }

  /** Mixing a fixed chunk in is a permutation of the 64-bit states: it has an inverse on both sides. */
  lemma ChunkPermutesStates()
    ensures Inverse(MixedChunk, UnmixedChunk) && TellsStates(MixedChunk)
  {
    MixTellsStates();
    forall h: word, chunk: seq<byte>
      ensures UnmixedChunk(MixedChunk(h, chunk), chunk) == h && MixedChunk(UnmixedChunk(h, chunk), chunk) == h
    {
      FoldsInvert(Mix, Unmix, h, Limbs(chunk));
    }
    forall g: word, h: word, chunk: seq<byte> | g != h ensures MixedChunk(g, chunk) != MixedChunk(h, chunk) {
      FoldTellsStates(Mix, g, h, Limbs(chunk));
    }
  }

  lemma LimbCount(chunk: seq<byte>, full: nat)
    requires full == |chunk| / 8
    ensures |Limbs(chunk)| == 1 + full + (|chunk| - 8 * full) && Limbs(chunk)[0] == |chunk| % WORDS
  {
  }

  lemma WordLimb(chunk: seq<byte>, k: nat)
    requires k < |chunk| / 8
    ensures 1 + k < |Limbs(chunk)| && Limbs(chunk)[1 + k] == WordAt(chunk, k)
  {
  }

  lemma ByteLimb(chunk: seq<byte>, j: nat)
    requires 8 * (|chunk| / 8) <= j < |chunk|
    ensures var i := TailLimb(|chunk|, j); i < |Limbs(chunk)| && Limbs(chunk)[i] == chunk[j]
  {
  }

  /** `h` is the state after the first `i` limbs. */
  ghost predicate Reached(hash: word, limbs: seq<word>, i: nat, h: word) {
    i <= |limbs| && h == Fold(Mix, hash, limbs[..i])
  }

  lemma ReachedNext(hash: word, limbs: seq<word>, i: nat, h: word, limb: word)
    requires i < |limbs| && limbs[i] == limb && Reached(hash, limbs, i, h)
    ensures Reached(hash, limbs, i + 1, Mix(h, limb))
  {
    FoldNext(Mix, hash, limbs, i);
  }

  lemma ReachedEnd(hash: word, chunk: seq<byte>, h: word)
    requires Reached(hash, Limbs(chunk), |Limbs(chunk)|, h)
    ensures h == MixedChunk(hash, chunk)
  {
    assert Limbs(chunk)[..|Limbs(chunk)|] == Limbs(chunk);
  }

  /** The length, then the words, then the bytes of the tail. */
  method MixChunk(hash: word, chunk: seq<byte>) returns (h: word)
    ensures h == MixedChunk(hash, chunk)
  {
    h := MixWords(hash, chunk);
    LimbsEndInTail(chunk);
    h := MixTail(hash, chunk, h, Limbs(chunk));
    ReachedEnd(hash, chunk, h);
  }

  /** The limb of a tail byte. */
  function TailLimb(n: nat, j: nat): nat
    requires 8 * (n / 8) <= j
  {
    1 + n / 8 + (j - 8 * (n / 8))
  }

  /** `limbs` ends in the bytes of the chunk's tail. */
  ghost predicate EndsInTail(limbs: seq<word>, chunk: seq<byte>) {
    && |limbs| == TailLimb(|chunk|, |chunk|)
    && forall j :: 8 * (|chunk| / 8) <= j < |chunk| ==> limbs[TailLimb(|chunk|, j)] == chunk[j]
  }

  lemma LimbsEndInTail(chunk: seq<byte>)
    ensures EndsInTail(Limbs(chunk), chunk)
  {
    LimbCount(chunk, |chunk| / 8);
    forall j | 8 * (|chunk| / 8) <= j < |chunk| ensures Limbs(chunk)[TailLimb(|chunk|, j)] == chunk[j] {
      ByteLimb(chunk, j);
    }
  }

  method MixTail(hash: word, chunk: seq<byte>, words: word, ghost limbs: seq<word>) returns (h: word)
    requires EndsInTail(limbs, chunk) && Reached(hash, limbs, 1 + |chunk| / 8, words)
    ensures Reached(hash, limbs, |limbs|, h)
  {
    h := words;
    ghost var i := 1 + |chunk| / 8;
    for j := 8 * (|chunk| / 8) to |chunk|
      invariant i == TailLimb(|chunk|, j) && Reached(hash, limbs, i, h)
    {
      ReachedNext(hash, limbs, i, h, chunk[j]);
      h, i := Mix(h, chunk[j]), i + 1;
    }
  }

  method MixWords(hash: word, chunk: seq<byte>) returns (h: word)
    ensures Reached(hash, Limbs(chunk), 1 + |chunk| / 8, h)
  {
    var full := |chunk| / 8;
    LimbCount(chunk, full);
    ReachedNext(hash, Limbs(chunk), 0, hash, |chunk| % WORDS);
    h := Mix(hash, |chunk| % WORDS);
    for k := 0 to full
      invariant Reached(hash, Limbs(chunk), 1 + k, h)
    {
      WordLimb(chunk, k);
      ReachedNext(hash, Limbs(chunk), 1 + k, h, WordAt(chunk, k));
      h := Mix(h, WordAt(chunk, k));
    }
  }

  // ----- a tree ---------------------------------------------------------------------------------------

  /** A file: its path under the root and its contents, as bytes. */
  datatype File = File(path: seq<byte>, contents: seq<byte>)

  function MixedFile(h: word, f: File): word {
    MixedChunk(MixedChunk(h, f.path), f.contents)
  }

  function TreeHash(files: seq<File>): word {
    Fold(MixedFile, OFFSET, files)
  }

  /** The build script's loop over the sorted files. */
  method HashFiles(files: seq<File>) returns (hash: word)
    ensures hash == TreeHash(files)
  {
    hash := OFFSET;
    for i := 0 to |files|
      invariant hash == TreeHash(files[..i])
    {
      hash := MixChunk(hash, files[i].path);
      hash := MixChunk(hash, files[i].contents);
      FoldNext(MixedFile, OFFSET, files, i);
    }
    assert files[..|files|] == files;
  }

  /** The run-time copy of the chunk loop, which a build script cannot share. */
  method RuntimeMixChunk(hash: word, chunk: seq<byte>) returns (h: word)
    ensures h == MixedChunk(hash, chunk)
  {
    ghost var limbs := Limbs(chunk);
    LimbCount(chunk, |chunk| / 8);
    ReachedNext(hash, limbs, 0, hash, |chunk| % WORDS);
    h := Mix(hash, |chunk| % WORDS);
    var words, tail := 0, 8 * (|chunk| / 8);
    while words < |chunk| / 8
      invariant words <= |chunk| / 8 && Reached(hash, limbs, 1 + words, h)
    {
      WordLimb(chunk, words);
      ReachedNext(hash, limbs, 1 + words, h, WordAt(chunk, words));
      h, words := Mix(h, WordAt(chunk, words)), words + 1;
    }
    LimbsEndInTail(chunk);
    ghost var i := 1 + words;
    while tail < |chunk|
      invariant 8 * (|chunk| / 8) <= tail <= |chunk| && i == TailLimb(|chunk|, tail) && Reached(hash, limbs, i, h)
    {
      ReachedNext(hash, limbs, i, h, chunk[tail]);
      h, tail, i := Mix(h, chunk[tail]), tail + 1, i + 1;
    }
    ReachedEnd(hash, chunk, h);
  }

  /** The run-time copy of the tree loop agrees with the build script's, except that no files give no hash. */
  method StdlibTreeHash(files: seq<File>) returns (hash: Option<word>)
    ensures hash == if files == [] then None else Some(TreeHash(files))
  {
    if files == [] {
      return None;
    }
    var h := OFFSET;
    for i := 0 to |files|
      invariant h == TreeHash(files[..i])
    {
      h := RuntimeMixChunk(h, files[i].path);
      h := RuntimeMixChunk(h, files[i].contents);
      FoldNext(MixedFile, OFFSET, files, i);
    }
    assert files[..|files|] == files;
    hash := Some(h);
  }

  // ----- one change always shows ------------------------------------------------------------------------

  /** Where a chunk of `n` bytes is cut: an aligned word among the full ones, or a byte of the tail. */
  predicate IsPlace(n: nat, lo: nat, hi: nat) {
    || (lo % 8 == 0 && hi == lo + 8 && hi <= 8 * (n / 8))
    || (8 * (n / 8) <= lo < n && hi == lo + 1)
  }

  /** The chunks differ in the bytes from `lo` to `hi`, and only there. */
  ghost predicate ChangedAt(a: seq<byte>, b: seq<byte>, lo: nat, hi: nat) {
    && |a| == |b| && lo <= hi <= |a|
    && a[..lo] == b[..lo] && a[lo..hi] != b[lo..hi] && a[hi..] == b[hi..]
  }

  ghost predicate OneChange(a: seq<byte>, b: seq<byte>) {
    exists lo: nat, hi: nat :: IsPlace(|a|, lo, hi) && ChangedAt(a, b, lo, hi)
  }

  lemma WordsTellBytes(a: seq<byte>, b: seq<byte>, k: nat)
    requires |a| == |b| && 8 * k + 8 <= |a|
    ensures WordAt(a, k) == WordAt(b, k) <==> a[8 * k..8 * k + 8] == b[8 * k..8 * k + 8]
  {
    LeOfFromLe(a[8 * k..8 * k + 8]);
    LeOfFromLe(b[8 * k..8 * k + 8]);
  }

  lemma ByteOutside(a: seq<byte>, b: seq<byte>, lo: nat, hi: nat, k: nat)
    requires ChangedAt(a, b, lo, hi) && k < |a| && (k < lo || hi <= k)
    ensures a[k] == b[k]
  {
    if k < lo {
      assert a[k] == a[..lo][k] && b[k] == b[..lo][k];
    } else {
      assert a[k] == a[hi..][k - hi] && b[k] == b[hi..][k - hi];
    }
  }

  lemma WordOutside(a: seq<byte>, b: seq<byte>, lo: nat, hi: nat, k: nat)
    requires ChangedAt(a, b, lo, hi) && 8 * k + 8 <= |a| && (8 * k + 8 <= lo || hi <= 8 * k)
    ensures WordAt(a, k) == WordAt(b, k)
  {
    forall j | 8 * k <= j < 8 * k + 8 ensures a[j] == b[j] {
      ByteOutside(a, b, lo, hi, j);
    }
    assert a[8 * k..8 * k + 8] == b[8 * k..8 * k + 8];
  }

  /** The limb that holds a place. */
  function LimbOfPlace(n: nat, lo: nat): nat {
    if lo < 8 * (n / 8) then 1 + lo / 8 else 1 + n / 8 + (lo - 8 * (n / 8))
  }

  lemma LimbsOutside(a: seq<byte>, b: seq<byte>, lo: nat, hi: nat, i: nat)
    requires ChangedAt(a, b, lo, hi) && IsPlace(|a|, lo, hi)
    requires i < |Limbs(a)| && i != LimbOfPlace(|a|, lo)
    ensures i < |Limbs(b)| && Limbs(a)[i] == Limbs(b)[i]
  {
    var full := |a| / 8;
    LimbCount(a, full);
    LimbCount(b, full);
    if 0 < i <= full {
      WordLimb(a, i - 1);
      WordLimb(b, i - 1);
      WordOutside(a, b, lo, hi, i - 1);
    } else if i > full {
      var j := 8 * full + (i - 1 - full);
      ByteLimb(a, j);
      ByteLimb(b, j);
      ByteOutside(a, b, lo, hi, j);
    }
  }

  lemma LimbInside(a: seq<byte>, b: seq<byte>, lo: nat, hi: nat)
    requires ChangedAt(a, b, lo, hi) && IsPlace(|a|, lo, hi)
    ensures var i := LimbOfPlace(|a|, lo); i < |Limbs(a)| == |Limbs(b)| && Limbs(a)[i] != Limbs(b)[i]
  {
    var full := |a| / 8;
    LimbCount(a, full);
    LimbCount(b, full);
    if lo < 8 * full {
      WordLimb(a, lo / 8);
      WordLimb(b, lo / 8);
      WordsTellBytes(a, b, lo / 8);
    } else {
      ByteLimb(a, lo);
      ByteLimb(b, lo);
      assert a[lo..hi] == [a[lo]] && b[lo..hi] == [b[lo]];
    }
  }

  lemma ChunkChangeShows(h: word, a: seq<byte>, b: seq<byte>)
    requires OneChange(a, b)
    ensures MixedChunk(h, a) != MixedChunk(h, b)
  {
    var lo: nat, hi: nat :| IsPlace(|a|, lo, hi) && ChangedAt(a, b, lo, hi);
    var x, y, i := Limbs(a), Limbs(b), LimbOfPlace(|a|, lo);
    LimbInside(a, b, lo, hi);
    forall j | 0 <= j < |x| && j != i ensures x[j] == y[j] {
      LimbsOutside(a, b, lo, hi, j);
    }
    OneLimbShows(h, x, y, i);
  }

  lemma OneLimbShows(h: word, a: seq<word>, b: seq<word>, i: nat)
    requires |a| == |b| && i < |a| && a[i] != b[i]
    requires forall j :: 0 <= j < |a| && j != i ==> a[j] == b[j]
    ensures Fold(Mix, h, a) != Fold(Mix, h, b)
  {
    MixTellsStates();
    forall g: word ensures Mix(g, a[i]) != Mix(g, b[i]) {
      MixTellsLimbs(g, a[i], b[i]);
    }
    OneItemShows(Mix, h, a, b, i);
  }

  /** One of the two chunks of a file changed in one place. */
  ghost predicate FileChanged(f: File, g: File) {
    || (f.path == g.path && OneChange(f.contents, g.contents))
    || (f.contents == g.contents && OneChange(f.path, g.path))
  }

  lemma FileChangeShows(h: word, f: File, g: File)
    requires FileChanged(f, g)
    ensures MixedFile(h, f) != MixedFile(h, g)
  {
    if f.path == g.path && OneChange(f.contents, g.contents) {
      ChunkChangeShows(MixedChunk(h, f.path), f.contents, g.contents);
    } else {
      ChunkChangeShows(h, f.path, g.path);
      ChunkTellsStates(MixedChunk(h, f.path), MixedChunk(h, g.path), f.contents);
    }
  }

  lemma ChunkTellsStates(g: word, h: word, chunk: seq<byte>)
    requires g != h
    ensures MixedChunk(g, chunk) != MixedChunk(h, chunk)
  {
    ChunkPermutesStates();
  }

  lemma FileTellsStates()
    ensures TellsStates(MixedFile)
  {
    forall g: word, h: word, f: File | g != h ensures MixedFile(g, f) != MixedFile(h, f) {
      ChunkTellsStates(g, h, f.path);
      ChunkTellsStates(MixedChunk(g, f.path), MixedChunk(h, f.path), f.contents);
    }
  }

  /** Trees of the same files, of the same lengths, that differ in one word or one tail byte of one file never hash alike. */
  lemma OneChangeShows(t: seq<File>, u: seq<File>, i: nat)
    requires |t| == |u| && i < |t| && FileChanged(t[i], u[i])
    requires forall j :: 0 <= j < |t| && j != i ==> t[j] == u[j]
    ensures TreeHash(t) != TreeHash(u)
  {
    FileTellsStates();
    forall h: word ensures MixedFile(h, t[i]) != MixedFile(h, u[i]) {
      FileChangeShows(h, t[i], u[i]);
    }
    OneItemShows(MixedFile, OFFSET, t, u, i);
  }

  /** Two changes can hide each other: after any change of one limb there is exactly one next limb that restores the state. */
  lemma SecondChangeCanCancel(h: word, a: word, next: word, a': word, next': word)
    ensures Mix(Mix(h, a'), next') == Mix(Mix(h, a), next) <==> next' == Xor(Xor(Mix(h, a), next), Mix(h, a'))
  {
    CancellingLimb(Mix(h, a), Mix(h, a'), next, next');
  }

  lemma CancellingLimb(g: word, g': word, next: word, next': word)
    ensures Mix(g', next') == Mix(g, next) <==> next' == Xor(Xor(g, next), g')
  {
    var cancel := Xor(Xor(g, next), g');
    XorTwice(Xor(g, next), g');
    XorCommutes(g', cancel);
    MixTellsLimbs(g', next', cancel);
  }
}
