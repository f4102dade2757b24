/**
 The archive inside a release binary: the manifest and the modules, each field with its
 length before it, and an optional image tail. Serializing and parsing are inverse in both
 directions, so an archive has one meaning and a bundle one archive; and they are inverse
 on exactly the bundles whose lengths fit their fields.
 */
module Archive {
  import opened Wrappers
  import opened Utf8

  datatype Bundle = Bundle(manifest: Str, modules: seq<(Str, Str)>, image: Option<seq<byte>>)

  /** Tags the optional image tail: "BRDIMG01". */
  const IMAGE_MAGIC: seq<byte> := [0x42, 0x52, 0x44, 0x49, 0x4D, 0x47, 0x30, 0x31]

  // ----- little-endian integers -------------------------------------------------------------

  /** The `k` low bytes of `n`, low byte first: what is above them is cut off, as a cast does. */
  function Le(n: nat, k: nat): (bytes: seq<byte>)
    ensures |bytes| == k
  {
    if k == 0 then [] else [n % 256] + Le(n / 256, k - 1)
  }

  function FromLe(b: seq<byte>): nat {
    if b == [] then 0 else b[0] + 256 * FromLe(b[1..])
  }

  function Range(k: nat): nat {
    if k == 0 then 1 else 256 * Range(k - 1)
  }

  lemma {:induction false} FromLeOfLe(n: nat, k: nat)
    requires n < Range(k)
    ensures FromLe(Le(n, k)) == n
  {
    if k > 0 {
      FromLeOfLe(n / 256, k - 1);
      assert Le(n, k)[1..] == Le(n / 256, k - 1);
    }
  }

  lemma LowByte(low: byte, high: nat)
    ensures (low + 256 * high) % 256 == low && (low + 256 * high) / 256 == high
  {
  }

  lemma LeCons(low: byte, high: nat, k: nat)
    ensures Le(low + 256 * high, k + 1) == [low] + Le(high, k)
  {
    LowByte(low, high);
  }

  lemma {:induction false} LeOfFromLe(b: seq<byte>)
    ensures FromLe(b) < Range(|b|) && Le(FromLe(b), |b|) == b
  {
    if b != [] {
      LeOfFromLe(b[1..]);
      LeCons(b[0], FromLe(b[1..]), |b| - 1);
      assert b == [b[0]] + b[1..];
    }
  }

  lemma Ranges()
    ensures Range(4) == 0x1_0000_0000 && Range(8) == 0x1_0000_0000_0000_0000
  {
    assert Range(2) == 65536;
    assert Range(4) == 0x1_0000_0000;
    assert Range(6) == 0x1_0000_0000_0000;
  }

  // ----- the format ------------------------------------------------------------------------------

  /** A 32-bit length, then the bytes. */
  function Lp(b: seq<byte>): seq<byte> {
    Le(|b|, 4) + b
  }

  function ModuleBytes(m: (Str, Str)): seq<byte> {
    Lp(Encode(m.0)) + Lp(Encode(m.1))
  }

  /** The items of a list, each written by `put`. */
  function PutAll<T>(put: T -> seq<byte>, items: seq<T>): seq<byte> {
    if items == [] then [] else put(items[0]) + PutAll(put, items[1..])
  }

  function ImageBytes(image: Option<seq<byte>>): seq<byte> {
    if image.None? then [] else IMAGE_MAGIC + Le(|image.value|, 8) + image.value
  }

  function Serialized(b: Bundle): seq<byte> {
    Lp(Encode(b.manifest)) + (Le(|b.modules|, 4) + (PutAll(ModuleBytes, b.modules) + ImageBytes(b.image)))
  }

  ghost predicate ModuleFits(m: (Str, Str)) {
    |Encode(m.0)| < Range(4) && |Encode(m.1)| < Range(4)
  }

  /** Every length fits the field it is written in. */
  ghost predicate Fits(b: Bundle) {
    && |Encode(b.manifest)| < Range(4)
    && |b.modules| < Range(4)
    && (forall m :: m in b.modules ==> ModuleFits(m))
    && (b.image.Some? ==> |b.image.value| < Range(8))
  }

  // ----- parsing, on values: what was read, and what is left --------------------------------------

  function TakeU32(b: seq<byte>): Option<(nat, seq<byte>)> {
    if |b| < 4 then None else Some((FromLe(b[..4]), b[4..]))
  }

  function TakeLp(b: seq<byte>): Option<(seq<byte>, seq<byte>)> {
    match TakeU32(b)
    case None => None
    case Some((n, rest)) => if |rest| < n then None else Some((rest[..n], rest[n..]))
  }

  function TakeStr(b: seq<byte>): Option<(Str, seq<byte>)> {
    match TakeLp(b)
    case None => None
    case Some((bytes, rest)) =>
      match Decode(bytes)
      case None => None
      case Some(s) => Some((s, rest))
  }

  function TakeModule(b: seq<byte>): Option<((Str, Str), seq<byte>)> {
    match TakeStr(b)
    case None => None
    case Some((name, afterName)) =>
      match TakeStr(afterName)
      case None => None
      case Some((src, rest)) => Some(((name, src), rest))
  }

  /** `count` items, each read by `take`. */
  function TakeAll<T>(take: seq<byte> -> Option<(T, seq<byte>)>, b: seq<byte>, count: nat): Option<(seq<T>, seq<byte>)>
    decreases count
  {
    if count == 0 then Some(([], b))
    else match take(b)
      case None => None
      case Some((item, afterItem)) =>
        match TakeAll(take, afterItem, count - 1)
        case None => None
        case Some((items, rest)) => Some(([item] + items, rest))
  }

  /** Nothing, or exactly one image; anything else is a corrupt archive. */
  function ParseImage(rest: seq<byte>): Option<Option<seq<byte>>> {
    if rest == [] then Some(None)
    else if |rest| < 16 || rest[..8] != IMAGE_MAGIC || FromLe(rest[8..16]) != |rest[16..]| then None
    else Some(Some(rest[16..]))
  }

  /** The modules and the image, after the manifest and the count. */
  function ParseBody(manifest: Str, b: seq<byte>, count: nat): Option<Bundle> {
    match TakeAll(TakeModule, b, count)
    case None => None
    case Some((modules, rest)) =>
      match ParseImage(rest)
      case None => None
      case Some(image) => Some(Bundle(manifest, modules, image))
  }

  function Parsed(b: seq<byte>): Option<Bundle> {
    match TakeStr(b)
    case None => None
    case Some((manifest, afterManifest)) =>
      match TakeU32(afterManifest)
      case None => None
      case Some((count, afterCount)) => ParseBody(manifest, afterCount, count)
  }

  // ----- what was written is read back ------------------------------------------------------------

  lemma TakeU32Written(n: nat, rest: seq<byte>)
    requires n < Range(4)
    ensures TakeU32(Le(n, 4) + rest) == Some((n, rest))
  {
    var b := Le(n, 4) + rest;
    assert b[..4] == Le(n, 4) && b[4..] == rest;
    FromLeOfLe(n, 4);
  }

  lemma TakeStrWritten(s: Str, rest: seq<byte>)
    requires |Encode(s)| < Range(4)
    ensures TakeStr(Lp(Encode(s)) + rest) == Some((s, rest))
  {
    var bytes := Encode(s);
    assert Lp(bytes) + rest == Le(|bytes|, 4) + (bytes + rest);
    TakeU32Written(|bytes|, bytes + rest);
    assert (bytes + rest)[..|bytes|] == bytes && (bytes + rest)[|bytes|..] == rest;
    DecodeInvertsEncode(s);
  }

  lemma TakeModuleWritten(m: (Str, Str), rest: seq<byte>)
    requires ModuleFits(m)
    ensures TakeModule(ModuleBytes(m) + rest) == Some((m, rest))
  {
    var name, src := Lp(Encode(m.0)), Lp(Encode(m.1));
    assert ModuleBytes(m) + rest == name + (src + rest);
    TakeStrWritten(m.0, src + rest);
    TakeStrWritten(m.1, rest);
  }

  /** Items that are each read back are read back together. */
  lemma {:induction false} TakeAllWritten<T>(put: T -> seq<byte>, take: seq<byte> -> Option<(T, seq<byte>)>, items: seq<T>,
                                             rest: seq<byte>)
    requires forall x, after :: x in items ==> take(put(x) + after) == Some((x, after))
    ensures TakeAll(take, PutAll(put, items) + rest, |items|) == Some((items, rest))
    decreases |items|
  {
    if items == [] {
      assert PutAll(put, items) + rest == rest;
    } else {
      var after := PutAll(put, items[1..]) + rest;
      assert PutAll(put, items) + rest == put(items[0]) + after;
      TakeAllWritten(put, take, items[1..], rest);
      assert [items[0]] + items[1..] == items;
    }
  }

  lemma ImageWritten(image: Option<seq<byte>>)
    requires image.Some? ==> |image.value| < Range(8)
    ensures ParseImage(ImageBytes(image)) == Some(image)
  {
    if image.Some? {
      var rest := ImageBytes(image);
      assert rest[..8] == IMAGE_MAGIC && rest[8..16] == Le(|image.value|, 8) && rest[16..] == image.value;
      FromLeOfLe(|image.value|, 8);
    }
  }

  lemma BodyWritten(b: Bundle)
    requires Fits(b)
    ensures ParseBody(b.manifest, PutAll(ModuleBytes, b.modules) + ImageBytes(b.image), |b.modules|) == Some(b)
  {
    forall m, after | m in b.modules ensures TakeModule(ModuleBytes(m) + after) == Some((m, after)) {
      TakeModuleWritten(m, after);
    }
    TakeAllWritten(ModuleBytes, TakeModule, b.modules, ImageBytes(b.image));
    ImageWritten(b.image);
  }

  lemma ParseInvertsSerialize(b: Bundle)
    requires Fits(b)
    ensures Parsed(Serialized(b)) == Some(b)
  {
    var body := PutAll(ModuleBytes, b.modules) + ImageBytes(b.image);
    TakeStrWritten(b.manifest, Le(|b.modules|, 4) + body);
    TakeU32Written(|b.modules|, body);
    BodyWritten(b);
  }

  // ----- what is read was written -----------------------------------------------------------------

  lemma U32Taken(b: seq<byte>)
    requires TakeU32(b).Some?
    ensures var (n, rest) := TakeU32(b).value; n < Range(4) && b == Le(n, 4) + rest
  {
    LeOfFromLe(b[..4]);
    assert b == b[..4] + b[4..];
  }

  lemma LpTaken(b: seq<byte>)
    requires TakeLp(b).Some?
    ensures var (run, rest) := TakeLp(b).value; |run| < Range(4) && b == Lp(run) + rest
  {
    U32Taken(b);
    var (n, afterLength) := TakeU32(b).value;
    assert afterLength == afterLength[..n] + afterLength[n..];
  }

  lemma StrTaken(b: seq<byte>)
    requires TakeStr(b).Some?
    ensures var (s, rest) := TakeStr(b).value; |Encode(s)| < Range(4) && b == Lp(Encode(s)) + rest
  {
    LpTaken(b);
    EncodeInvertsDecode(TakeLp(b).value.0);
  }

  lemma ModuleTaken(b: seq<byte>)
    requires TakeModule(b).Some?
    ensures var (m, rest) := TakeModule(b).value; ModuleFits(m) && b == ModuleBytes(m) + rest
  {
    StrTaken(b);
    var (name, afterName) := TakeStr(b).value;
    StrTaken(afterName);
    var (src, rest) := TakeStr(afterName).value;
    var x, y := Lp(Encode(name)), Lp(Encode(src));
    assert x + (y + rest) == x + y + rest;
  }

  /** If what is read as one item was written as one, so it is of a list. */
  lemma {:induction false} AllTaken<T>(put: T -> seq<byte>, take: seq<byte> -> Option<(T, seq<byte>)>, fits: T -> bool,
                                       b: seq<byte>, count: nat)
    requires forall c :: take(c).Some? ==> var (x, rest) := take(c).value; fits(x) && c == put(x) + rest
    requires TakeAll(take, b, count).Some?
    ensures var (items, rest) := TakeAll(take, b, count).value;
            |items| == count && b == PutAll(put, items) + rest && forall x :: x in items ==> fits(x)
    decreases count
  {
    if count > 0 {
      var (item, afterItem) := take(b).value;
      AllTaken(put, take, fits, afterItem, count - 1);
      var (others, rest) := TakeAll(take, afterItem, count - 1).value;
      var items := [item] + others;
      assert items[1..] == others;
      assert put(item) + (PutAll(put, others) + rest) == put(item) + PutAll(put, others) + rest;
    }
  }

  lemma ImageBytesOf(rest: seq<byte>, length: seq<byte>, image: seq<byte>)
    requires |rest| >= 16 && rest[..8] == IMAGE_MAGIC && length == rest[8..16] && image == rest[16..]
    requires length == Le(|image|, 8)
    ensures ImageBytes(Some(image)) == rest
  {
    assert rest == rest[..8] + rest[8..16] + rest[16..];
  }

  lemma ImageTaken(rest: seq<byte>)
    requires ParseImage(rest).Some?
    ensures ImageBytes(ParseImage(rest).value) == rest
    ensures ParseImage(rest).value.Some? ==> |ParseImage(rest).value.value| < Range(8)
  {
    if rest != [] {
      LeOfFromLe(rest[8..16]);
      ImageBytesOf(rest, rest[8..16], rest[16..]);
    }
  }

  lemma BodyTaken(manifest: Str, b: seq<byte>, count: nat)
    requires ParseBody(manifest, b, count).Some? && count < Range(4) && |Encode(manifest)| < Range(4)
    ensures var bundle := ParseBody(manifest, b, count).value;
            && bundle.manifest == manifest && |bundle.modules| == count && Fits(bundle)
            && b == PutAll(ModuleBytes, bundle.modules) + ImageBytes(bundle.image)
  {
    var fits := (m: (Str, Str)) => ModuleFits(m);
    forall c | TakeModule(c).Some?
      ensures var (m, rest) := TakeModule(c).value; fits(m) && c == ModuleBytes(m) + rest
    {
      ModuleTaken(c);
    }
    AllTaken(ModuleBytes, TakeModule, fits, b, count);
    var (modules, rest) := TakeAll(TakeModule, b, count).value;
    ImageTaken(rest);
    assert forall m :: m in modules ==> fits(m) && ModuleFits(m);
  }

  lemma SerializeInvertsParse(b: seq<byte>)
    requires Parsed(b).Some?
    ensures Fits(Parsed(b).value) && Serialized(Parsed(b).value) == b
  {
    StrTaken(b);
    var (manifest, afterManifest) := TakeStr(b).value;
    U32Taken(afterManifest);
    var (count, afterCount) := TakeU32(afterManifest).value;
    BodyTaken(manifest, afterCount, count);
  }

  // ----- the bijection -----------------------------------------------------------------------------

  /** A bundle survives serializing exactly when each of its lengths fits its field. */
  lemma RoundTripExactlyWhenFits(b: Bundle)
    ensures Parsed(Serialized(b)) == Some(b) <==> Fits(b)
  {
    if Fits(b) {
      ParseInvertsSerialize(b);
    } else if Parsed(Serialized(b)) == Some(b) {
      SerializeInvertsParse(Serialized(b));
    }
  }

  /** The encoding is canonical: bytes parse exactly when they are some fitting bundle's, and then as it. */
  lemma ParsesExactlyTheSerialized(bytes: seq<byte>, b: Bundle)
    ensures Parsed(bytes) == Some(b) <==> Fits(b) && bytes == Serialized(b)
  {
    if Parsed(bytes) == Some(b) {
      SerializeInvertsParse(bytes);
    }
    if Fits(b) && bytes == Serialized(b) {
      ParseInvertsSerialize(b);
    }
  }

  // ----- the writer, the cursor and the parser -------------------------------------------------------

  /** Append a length-prefixed run. */
  method PutLp(out: seq<byte>, b: seq<byte>) returns (longer: seq<byte>)
    ensures longer == out + Lp(b)
  {
    longer := out + Le(|b|, 4);
    longer := longer + b;
  }

  method Serialize(b: Bundle) returns (out: seq<byte>)
    ensures out == Serialized(b)
  {
    out := PutLp([], Encode(b.manifest));
    assert out == Lp(Encode(b.manifest));
    out := out + Le(|b.modules|, 4);
    out := PutModules(out, b.modules);
    out := PutImage(out, b.image);
    Regroup(Lp(Encode(b.manifest)), Le(|b.modules|, 4), PutAll(ModuleBytes, b.modules), ImageBytes(b.image));
  }

  method PutImage(out: seq<byte>, image: Option<seq<byte>>) returns (longer: seq<byte>)
    ensures longer == out + ImageBytes(image)
  {
    longer := out;
    if image.Some? {
      longer := longer + IMAGE_MAGIC;
      longer := longer + Le(|image.value|, 8);
      longer := longer + image.value;
    }
  }

  method PutModules(out: seq<byte>, modules: seq<(Str, Str)>) returns (longer: seq<byte>)
    ensures longer == out + PutAll(ModuleBytes, modules)
  {
    longer := out;
    assert modules[..0] == [];
    for i := 0 to |modules|
      invariant longer == out + PutAll(ModuleBytes, modules[..i])
    {
      PutAllAppend(ModuleBytes, modules[..i], modules[i]);
      assert modules[..i + 1] == modules[..i] + [modules[i]];
      longer := PutLp(longer, Encode(modules[i].0));
      longer := PutLp(longer, Encode(modules[i].1));
      Regroup(out, PutAll(ModuleBytes, modules[..i]), Lp(Encode(modules[i].0)), Lp(Encode(modules[i].1)));
    }
    assert modules[..|modules|] == modules;
  }

  lemma Regroup(a: seq<byte>, b: seq<byte>, c: seq<byte>, d: seq<byte>)
    ensures a + b + c + d == a + (b + (c + d))
  {
  }

  lemma {:induction false} PutAllAppend<T>(put: T -> seq<byte>, items: seq<T>, last: T)
    ensures PutAll(put, items + [last]) == PutAll(put, items) + put(last)
    decreases |items|
  {
    if items == [] {
      assert items + [last] == [last] && [last][1..] == [];
    } else {
      PutAllAppend(put, items[1..], last);
      assert (items + [last])[1..] == items[1..] + [last];
    }
  }

  /** A read that succeeded, with what is left after it. */
  ghost function With<T>(read: Option<T>, left: seq<byte>): Option<(T, seq<byte>)> {
    if read.None? then None else Some((read.value, left))
  }

  /** A forward-only reader: a read past the end yields nothing and stays where it was. */
  class Cursor {
    const b: seq<byte>
    var pos: nat

    constructor (bytes: seq<byte>)
      ensures b == bytes && pos == 0
    {
      b, pos := bytes, 0;
    }

    method NextU32() returns (n: Option<nat>)
      requires pos <= |b|
      modifies this
      ensures pos <= |b|
      ensures TakeU32(b[old(pos)..]) == With(n, b[pos..]) && (n.None? ==> pos == old(pos))
    {
      var end := pos + 4;
      if end > |b| {
        return None;
      }
      n := Some(FromLe(b[pos..end]));
      pos := end;
      assert b[old(pos)..][..4] == b[old(pos)..end];
    }

    /** A length whose bytes are missing leaves the cursor after the length. */
    method NextLp() returns (run: Option<seq<byte>>)
      requires pos <= |b|
      modifies this
      ensures pos <= |b|
      ensures TakeLp(b[old(pos)..]) == With(run, b[pos..])
    {
      var length := NextU32();
      if length.None? {
        return None;
      }
      var end := pos + length.value;
      if end > |b| {
        return None;
      }
      run := Some(b[pos..end]);
      assert b[pos..][..length.value] == b[pos..end] && b[pos..][length.value..] == b[end..];
      pos := end;
    }

    method NextStr() returns (s: Option<Str>)
      requires pos <= |b|
      modifies this
      ensures pos <= |b|
      ensures TakeStr(b[old(pos)..]) == With(s, b[pos..])
    {
      var run := NextLp();
      s := if run.None? then None else Decode(run.value);
    }

    method NextModule() returns (m: Option<(Str, Str)>)
      requires pos <= |b|
      modifies this
      ensures pos <= |b|
      ensures TakeModule(b[old(pos)..]) == With(m, b[pos..])
    {
      var name := NextStr();
      if name.None? {
        return None;
      }
      var src := NextStr();
      m := if src.None? then None else Some((name.value, src.value));
    }
  }

  /** `done`, then whatever `more` yields. */
  ghost function After<T>(done: seq<T>, more: Option<(seq<T>, seq<byte>)>): Option<(seq<T>, seq<byte>)> {
    if more.None? then None else Some((done + more.value.0, more.value.1))
  }

  lemma AfterNext<T>(take: seq<byte> -> Option<(T, seq<byte>)>, done: seq<T>, b: seq<byte>, count: nat, read: Option<T>,
                     left: seq<byte>)
    requires count > 0 && take(b) == With(read, left)
    ensures After(done, TakeAll(take, b, count)) ==
            if read.None? then None else After(done + [read.value], TakeAll(take, left, count - 1))
  {
    if read.Some? && TakeAll(take, left, count - 1).Some? {
      var others := TakeAll(take, left, count - 1).value.0;
      assert done + [read.value] + others == done + ([read.value] + others);
    }
  }

  lemma AfterEnds<T>(take: seq<byte> -> Option<(T, seq<byte>)>, done: seq<T>, b: seq<byte>, count: nat)
    ensures After([], TakeAll(take, b, count)) == TakeAll(take, b, count)
    ensures After(done, TakeAll(take, b, 0)) == Some((done, b))
  {
    var all := TakeAll(take, b, count);
    assert all.Some? ==> [] + all.value.0 == all.value.0;
    assert done + [] == done;
  }

  /** The module loop: on success the cursor stands after the last module. */
  method NextModules(c: Cursor, count: nat) returns (modules: Option<seq<(Str, Str)>>)
    requires c.pos <= |c.b|
    modifies c
    ensures c.pos <= |c.b|
    ensures TakeAll(TakeModule, c.b[old(c.pos)..], count) == With(modules, c.b[c.pos..])
  {
    ghost var result := TakeAll(TakeModule, c.b[c.pos..], count);
    var found: seq<(Str, Str)> := [];
    AfterEnds(TakeModule, found, c.b[c.pos..], count);
    ghost var left := count;
    for i := 0 to count
      invariant c.pos <= |c.b| && left == count - i
      invariant result == After(found, TakeAll(TakeModule, c.b[c.pos..], left))
    {
      ghost var b := c.b[c.pos..];
      var m := c.NextModule();
      AfterNext(TakeModule, found, b, left, m, c.b[c.pos..]);
      if m.None? {
        return None;
      }
      found, left := found + [m.value], left - 1;
    }
    AfterEnds(TakeModule, found, c.b[c.pos..], 0);
    modules := Some(found);
  }

  /** By `ParsesExactlyTheSerialized`, this reads exactly the serialized fitting bundles. */
  method ParseArchive(bytes: seq<byte>) returns (bundle: Option<Bundle>)
    ensures bundle == Parsed(bytes)
  {
    var c := new Cursor(bytes);
    assert bytes[0..] == bytes;
    var manifest := c.NextStr();
    if manifest.None? {
      return None;
    }
    var count := c.NextU32();
    if count.None? {
      return None;
    }
    var modules := NextModules(c, count.value);
    if modules.None? {
      return None;
    }
    var image := ParseImage(bytes[c.pos..]);
    bundle := if image.None? then None else Some(Bundle(manifest.value, modules.value, image.value));
  }
}
