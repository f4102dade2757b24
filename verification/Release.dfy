/**
 A release binary: a base executable, an archive and a footer that says how long the archive
 is. Releasing a release replaces the payload instead of nesting a second one, whatever the
 base bytes are, and the reader that seeks in a file agrees with the one that has all the
 bytes.
 */
module Release {
  import opened Wrappers
  import opened Utf8
  import opened Archive

  /** "BRDBNDL1" */
  const MAGIC: seq<byte> := [0x42, 0x52, 0x44, 0x42, 0x4E, 0x44, 0x4C, 0x31]
  const FORMAT_VERSION: nat := 1
  /** Magic (8), version (4), archive length (8). */
  const FOOTER_LEN: nat := 20
  /** Lengths are machine words. */
  const WORD_LIMIT: nat := 0x1_0000_0000_0000_0000

  type FooterBytes = b: seq<byte> | |b| == 20 witness seq(20, _ => 0)

  function DecodeFooter(foot: FooterBytes): Option<nat> {
    if foot[..8] != MAGIC then None
    else if FromLe(foot[8..12]) != FORMAT_VERSION then None
    else Some(FromLe(foot[12..]))
  }

  /** Where the archive starts and how long it is. */
  function Footer(bytes: seq<byte>): (window: Option<(nat, nat)>)
    ensures window.Some? ==> window.value.0 + window.value.1 + FOOTER_LEN == |bytes|
  {
    if |bytes| < FOOTER_LEN then None
    else match DecodeFooter(bytes[|bytes| - FOOTER_LEN..])
      case None => None
      case Some(length) =>
        var total := FOOTER_LEN + length;
        if total >= WORD_LIMIT || |bytes| < total then None else Some((|bytes| - total, length))
  }

  function StripExisting(bytes: seq<byte>): seq<byte> {
    match Footer(bytes)
    case None => bytes
    case Some((start, _)) => bytes[..start]
  }

  /** The last 20 bytes of a bundle. */
  function Foot(version: nat, length: nat): FooterBytes {
    MAGIC + Le(version, 4) + Le(length, 8)
  }

  function FooterFor(archive: seq<byte>): FooterBytes {
    Foot(FORMAT_VERSION, |archive|)
  }

  function Released(base: seq<byte>, archive: seq<byte>): seq<byte> {
    StripExisting(base) + archive + FooterFor(archive)
  }

  /** The buffer a release is written from. */
  method WriteRelease(base: seq<byte>, archive: seq<byte>) returns (buf: seq<byte>)
    ensures buf == Released(base, archive)
  {
    buf := StripExisting(base);
    buf := buf + archive;
    buf := buf + MAGIC;
    buf := buf + Le(FORMAT_VERSION, 4);
    buf := buf + Le(|archive|, 8);
  }

  // ----- releasing a release ---------------------------------------------------------------------

  lemma {:induction false} FromLeOfLeCut(n: nat, k: nat)
    ensures FromLe(Le(n, k)) <= n && FromLe(Le(n, k)) < Range(k)
  {
    if k > 0 {
      FromLeOfLeCut(n / 256, k - 1);
      assert Le(n, k)[1..] == Le(n / 256, k - 1);
    }
  }

  lemma FooterDecodes(archive: seq<byte>)
    ensures DecodeFooter(FooterFor(archive)) == Some(FromLe(Le(|archive|, 8)))
  {
    var foot := FooterFor(archive);
    assert foot[..8] == MAGIC && foot[8..12] == Le(1, 4) && foot[12..] == Le(|archive|, 8);
    assert Range(1) <= Range(4);
    FromLeOfLe(1, 4);
  }

  lemma FooterReads(front: seq<byte>, foot: FooterBytes, length: nat)
    requires DecodeFooter(foot) == Some(length) && length <= |front|
    ensures Footer(front + foot) == if length + FOOTER_LEN >= WORD_LIMIT then None else Some((|front| - length, length))
  {
    assert (front + foot)[|front|..] == foot;
  }

  /** The length a footer claims: the low 64 bits of the archive's. */
  lemma ClaimedLength(length: nat, claimed: nat)
    requires claimed == FromLe(Le(length, 8))
    ensures claimed <= length && claimed < WORD_LIMIT && (length < WORD_LIMIT ==> claimed == length)
  {
    FromLeOfLeCut(length, 8);
    Ranges();
    if length < WORD_LIMIT {
      FromLeOfLe(length, 8);
    }
  }

  lemma StripUndoesFooter(front: seq<byte>, archive: seq<byte>, foot: FooterBytes, claimed: nat)
    requires DecodeFooter(foot) == Some(claimed)
    requires claimed <= |archive| && claimed < WORD_LIMIT && (|archive| < WORD_LIMIT ==> claimed == |archive|)
    ensures Footer(front + archive + foot) == Some((|front|, |archive|)) <==> |archive| + FOOTER_LEN < WORD_LIMIT
    ensures StripExisting(front + archive + foot) == front <==> |archive| + FOOTER_LEN < WORD_LIMIT
  {
    FooterReads(front + archive, foot, claimed);
    assert (front + archive + foot)[..|front|] == front;
  }

  /** The footer points at the archive, and stripping gives back what was in front, exactly for archives a word can measure. */
  lemma StripUndoesAppend(front: seq<byte>, archive: seq<byte>)
    ensures Footer(front + archive + FooterFor(archive)) == Some((|front|, |archive|)) <==> |archive| + FOOTER_LEN < WORD_LIMIT
    ensures StripExisting(front + archive + FooterFor(archive)) == front <==> |archive| + FOOTER_LEN < WORD_LIMIT
  {
    var claimed := FromLe(Le(|archive|, 8));
    FooterDecodes(archive);
    ClaimedLength(|archive|, claimed);
    StripUndoesFooter(front, archive, FooterFor(archive), claimed);
  }

  lemma StripOfReleased(base: seq<byte>, archive: seq<byte>)
    ensures StripExisting(Released(base, archive)) == StripExisting(base) <==> |archive| + FOOTER_LEN < WORD_LIMIT
  {
    StripUndoesAppend(StripExisting(base), archive);
  }

  /** Release `base` with each archive in turn, each time from the release before. */
  function ReleasedInTurn(base: seq<byte>, archives: seq<seq<byte>>): seq<byte>
    decreases |archives|
  {
    if archives == [] then base else ReleasedInTurn(Released(base, archives[0]), archives[1..])
  }

  /** Only the last release shows: payloads never accumulate, for any base, with or without a footer of its own. */
  lemma {:induction false} ReleasesDoNotAccumulate(base: seq<byte>, archives: seq<seq<byte>>)
    requires archives != [] && forall a :: a in archives ==> |a| + FOOTER_LEN < WORD_LIMIT
    ensures ReleasedInTurn(base, archives) == Released(base, archives[|archives| - 1])
    decreases |archives|
  {
    var first := Released(base, archives[0]);
    if |archives| > 1 {
      ReleasesDoNotAccumulate(first, archives[1..]);
      assert archives[0] in archives;
      StripOfReleased(base, archives[0]);
    } else {
      assert ReleasedInTurn(first, archives[1..]) == first;
    }
  }

  /** The file ends in a footer, and what it is appended to ends in one too. */
  predicate CarriesTwo(bytes: seq<byte>) {
    Footer(bytes).Some? && Footer(bytes[..Footer(bytes).value.0]).Some?
  }

  /** Stripping takes one payload off: it is idempotent on exactly the files that do not carry two. */
  lemma StripIsIdempotentExactly(bytes: seq<byte>)
    ensures StripExisting(StripExisting(bytes)) == StripExisting(bytes) <==> !CarriesTwo(bytes)
  {
    var once := StripExisting(bytes);
    if Footer(once).Some? {
      assert |StripExisting(once)| == Footer(once).value.0 < |once|;
    }
  }

  /** A release of a base strips down to a plain binary exactly when the base does not carry two payloads. */
  lemma ReleaseStripsCleanExactly(base: seq<byte>, archive: seq<byte>)
    requires |archive| + FOOTER_LEN < WORD_LIMIT
    ensures Footer(StripExisting(Released(base, archive))).None? <==> !CarriesTwo(base)
    ensures StripExisting(StripExisting(Released(base, archive))) == StripExisting(Released(base, archive)) <==> !CarriesTwo(base)
  {
    StripOfReleased(base, archive);
    StripIsIdempotentExactly(base);
  }

  /** Footers put on by hand stack up: for any front and any two archives that words can measure, the file carries two. */
  lemma TwoPayloadsStack(front: seq<byte>, first: seq<byte>, second: seq<byte>)
    requires |first| + FOOTER_LEN < WORD_LIMIT && |second| + FOOTER_LEN < WORD_LIMIT
    ensures CarriesTwo(front + first + FooterFor(first) + second + FooterFor(second))
  {
    var inner := front + first + FooterFor(first);
    StripUndoesAppend(front, first);
    StripUndoesAppend(inner, second);
    assert (inner + second + FooterFor(second))[..|inner|] == inner;
  }

  // ----- the two readers --------------------------------------------------------------------------

  datatype Corruption =
    | Version(found: nat)
    | LengthClaim(length: nat)
    | Unreadable
    | Unparsable

  datatype Read = NotABundle | Mounted(bundle: Bundle) | Corrupt(why: Corruption)

  /** A file as the seeking reader meets it: each of its two reads may fail. */
  datatype File = Missing | File(bytes: seq<byte>, footReads: bool, archiveReads: bool)

  /** Where the seeking reader finds the archive, or why it stops. */
  datatype Located = Window(archive: seq<byte>) | Stop(read: Read)

  /** The file ends in the magic: from there on it is a bundle, and a fault in it is an error. */
  predicate EndsInMagic(bytes: seq<byte>) {
    |bytes| >= FOOTER_LEN && bytes[|bytes| - FOOTER_LEN..][..8] == MAGIC
  }

  function Locate(bytes: seq<byte>): Located {
    if !EndsInMagic(bytes) then Stop(NotABundle)
    else
      var foot := bytes[|bytes| - FOOTER_LEN..];
      match DecodeFooter(foot)
      case None => Stop(Corrupt(Version(FromLe(foot[8..12]))))
      case Some(length) =>
        var total := FOOTER_LEN + length;
        if total >= WORD_LIMIT || total > |bytes| then Stop(Corrupt(LengthClaim(length)))
        else Window(bytes[|bytes| - total..|bytes| - FOOTER_LEN])
  }

  /** The slice reader: no footer, a bundle, or an archive that does not parse. */
  datatype Parse = NoFooter | Bundled(bundle: Bundle) | BadArchive

  /** The archive to parse, if the footer stands. */
  function Payload(bytes: seq<byte>): Option<seq<byte>> {
    match Footer(bytes)
    case None => None
    case Some((start, length)) => Some(bytes[start..start + length])
  }

  function Mounting(bundle: Option<Bundle>): Read {
    if bundle.None? then Corrupt(Unparsable) else Mounted(bundle.value)
  }

  /** What the seeking reader makes of a file. */
  function ReadOf(file: File): Read {
    if file.Missing? || !file.footReads then NotABundle
    else match Locate(file.bytes)
      case Stop(read) => read
      case Window(archive) => if file.archiveReads then Mounting(Parsed(archive)) else Corrupt(Unreadable)
  }

  /** Reads the last 20 bytes, and the archive only when they are a footer. */
  method ReadBundle(file: File) returns (read: Read)
    ensures read == ReadOf(file)
  {
    if file.Missing? {
      return NotABundle;
    }
    var found := ReadFooter(file.bytes, file.footReads);
    if found.Stop? {
      return found.read;
    }
    if !file.archiveReads {
      return Corrupt(Unreadable);
    }
    var bundle := ParseArchive(found.archive);
    read := Mounting(bundle);
  }

  method ReadFooter(bytes: seq<byte>, footReads: bool) returns (found: Located)
    ensures found == if footReads then Locate(bytes) else Stop(NotABundle)
  {
    var size := |bytes|;
    if size < FOOTER_LEN || !footReads {
      return Stop(NotABundle);
    }
    var foot := bytes[size - FOOTER_LEN..];
    if foot[..8] != MAGIC {
      return Stop(NotABundle);
    }
    var length := DecodeFooter(foot);
    if length.None? {
      return Stop(Corrupt(Version(FromLe(foot[8..12]))));
    }
    var total := FOOTER_LEN + length.value;
    found := if total >= WORD_LIMIT || total > size then Stop(Corrupt(LengthClaim(length.value)))
             else Window(bytes[size - total..size - FOOTER_LEN]);
  }

  function ParseOf(bytes: seq<byte>): Parse {
    match Payload(bytes)
    case None => NoFooter
    case Some(archive) => Bundling(Parsed(archive))
  }

  function Bundling(bundle: Option<Bundle>): Parse {
    if bundle.None? then BadArchive else Bundled(bundle.value)
  }

  method ParseBytes(bytes: seq<byte>) returns (parse: Parse)
    ensures parse == ParseOf(bytes)
  {
    var archive := Payload(bytes);
    if archive.None? {
      return NoFooter;
    }
    var bundle := ParseArchive(archive.value);
    parse := Bundling(bundle);
  }

  lemma LocateAgrees(bytes: seq<byte>)
    ensures match Payload(bytes)
            case None => Locate(bytes).Stop? && !Locate(bytes).read.Mounted? && Locate(bytes).read != Corrupt(Unparsable)
            case Some(archive) => Locate(bytes) == Window(archive)
    ensures Locate(bytes) == Stop(NotABundle) <==> !EndsInMagic(bytes)
  {
  }

  /** On a file it can read, the seeking reader mounts exactly what the slice reader finds. */
  lemma ReadersAgree(bytes: seq<byte>)
    ensures match ParseOf(bytes)
            case Bundled(b) => ReadOf(File(bytes, true, true)) == Mounted(b)
            case BadArchive => ReadOf(File(bytes, true, true)) == Corrupt(Unparsable)
            case NoFooter => Locate(bytes) == Stop(ReadOf(File(bytes, true, true)))
    ensures ReadOf(File(bytes, true, true)).Mounted? ==> ParseOf(bytes).Bundled?
    ensures ReadOf(File(bytes, true, true)) == Corrupt(Unparsable) ==> ParseOf(bytes) == BadArchive
  {
    LocateAgrees(bytes);
  }

  /**
   Any file at all, with either of its reads failing: it is taken for a plain binary exactly when its
   last bytes cannot be read or hold no magic, mounted exactly when the slice reader finds a
   bundle in it and the archive can be read, and corrupt otherwise.
   */
  lemma PlainExactlyWithoutMagic(file: File)
    ensures ReadOf(file) == NotABundle <==> !(file.File? && file.footReads && EndsInMagic(file.bytes))
    ensures ReadOf(file).Corrupt? <==>
              && file.File? && file.footReads && EndsInMagic(file.bytes)
              && !(file.archiveReads && ParseOf(file.bytes).Bundled?)
    ensures forall b :: ReadOf(file) == Mounted(b) <==>
              file.File? && file.footReads && file.archiveReads && ParseOf(file.bytes) == Bundled(b)
  {
    if file.File? {
      ReadersAgree(file.bytes);
      LocateAgrees(file.bytes);
    }
  }

  lemma FootParts(version: nat, length: nat)
    requires version < Range(4) && length < WORD_LIMIT
    ensures var foot := Foot(version, length); foot[..8] == MAGIC && FromLe(foot[8..12]) == version && FromLe(foot[12..]) == length
  {
    Ranges();
    var foot := Foot(version, length);
    assert foot[8..12] == Le(version, 4) && foot[12..] == Le(length, 8);
    FromLeOfLe(version, 4);
    FromLeOfLe(length, 8);
  }

  lemma FootOfMagic(foot: FooterBytes)
    requires foot[..8] == MAGIC
    ensures FromLe(foot[8..12]) < Range(4) && FromLe(foot[12..]) < WORD_LIMIT
    ensures foot == Foot(FromLe(foot[8..12]), FromLe(foot[12..]))
  {
    Ranges();
    LeOfFromLe(foot[8..12]);
    LeOfFromLe(foot[12..]);
    assert foot == foot[..8] + foot[8..12] + foot[12..];
  }

  /** The magic stands 20 bytes before the end, and what follows it is a version and a length. */
  lemma MagicMeansFooted(bytes: seq<byte>)
    ensures EndsInMagic(bytes) <==>
            exists front, version: nat, length: nat ::
              version < Range(4) && length < WORD_LIMIT && bytes == front + Foot(version, length)
  {
    if EndsInMagic(bytes) {
      var front, foot := bytes[..|bytes| - FOOTER_LEN], bytes[|bytes| - FOOTER_LEN..];
      FootOfMagic(foot);
      assert bytes == front + Foot(FromLe(foot[8..12]), FromLe(foot[12..]));
    }
    if front, version: nat, length: nat :| version < Range(4) && length < WORD_LIMIT && bytes == front + Foot(version, length) {
      FootParts(version, length);
      assert bytes[|front|..] == Foot(version, length);
    }
  }

  /** After the magic every fault is an error of its own: the version first, then the length, then the archive. */
  lemma EachFaultIsNamed(front: seq<byte>, version: nat, length: nat, archiveReads: bool)
    requires version < Range(4) && length < WORD_LIMIT
    ensures ReadOf(File(front + Foot(version, length), true, archiveReads)) ==
            if version != 1 then Corrupt(Version(version))
            else if length + 20 >= WORD_LIMIT || length > |front| then Corrupt(LengthClaim(length))
            else if !archiveReads then Corrupt(Unreadable)
            else match Parsed(front[|front| - length..])
              case None => Corrupt(Unparsable)
              case Some(b) => Mounted(b)
  {
    FootParts(version, length);
    LocatedByFoot(front, Foot(version, length), version, length);
  }

  lemma LocatedByFoot(front: seq<byte>, foot: FooterBytes, version: nat, length: nat)
    requires foot[..8] == MAGIC && FromLe(foot[8..12]) == version && FromLe(foot[12..]) == length
    ensures Locate(front + foot) ==
            if version != 1 then Stop(Corrupt(Version(version)))
            else if length + 20 >= WORD_LIMIT || length > |front| then Stop(Corrupt(LengthClaim(length)))
            else Window(front[|front| - length..])
  {
    FootAt(front, foot, length);
  }

  lemma FootAt(front: seq<byte>, foot: FooterBytes, length: nat)
    ensures (front + foot)[|front + foot| - FOOTER_LEN..] == foot
    ensures length <= |front| ==>
              (front + foot)[|front + foot| - (FOOTER_LEN + length)..|front + foot| - FOOTER_LEN] == front[|front| - length..]
  {
  }

  /** The bytes are some front, the serialized bundle and its footer. */
  ghost predicate Carries(bytes: seq<byte>, b: Bundle) {
    exists front :: bytes == front + Serialized(b) + FooterFor(Serialized(b))
  }

  lemma FooterIsCanonical(foot: FooterBytes, archive: seq<byte>)
    requires DecodeFooter(foot) == Some(|archive|)
    ensures foot == FooterFor(archive)
  {
    LeOfFromLe(foot[8..12]);
    LeOfFromLe(foot[12..]);
    assert foot == foot[..8] + foot[8..12] + foot[12..];
  }

  lemma PayloadIsCanonical(bytes: seq<byte>)
    requires Footer(bytes).Some?
    ensures var (start, length) := Footer(bytes).value;
            var archive := bytes[start..start + length];
            length + FOOTER_LEN < WORD_LIMIT && bytes == bytes[..start] + archive + FooterFor(archive)
  {
    var (start, length) := Footer(bytes).value;
    FooterIsCanonical(bytes[|bytes| - FOOTER_LEN..], bytes[start..start + length]);
    assert bytes == bytes[..start] + bytes[start..start + length] + bytes[start + length..];
  }

  /** A file reads as a bundle exactly when it ends in that bundle's archive and footer, whatever stands in front. */
  lemma ReadsExactlyWhatItCarries(bytes: seq<byte>, b: Bundle)
    requires |Serialized(b)| + FOOTER_LEN < WORD_LIMIT
    ensures ReadOf(File(bytes, true, true)) == Mounted(b) <==> Fits(b) && Carries(bytes, b)
    ensures ParseOf(bytes) == Bundled(b) <==> Fits(b) && Carries(bytes, b)
  {
    ReadersAgree(bytes);
    if ParseOf(bytes) == Bundled(b) {
      PayloadIsCanonical(bytes);
      var (start, length) := Footer(bytes).value;
      ParsesExactlyTheSerialized(bytes[start..start + length], b);
    }
    if Fits(b) && Carries(bytes, b) {
      var front :| bytes == front + Serialized(b) + FooterFor(Serialized(b));
      StripUndoesAppend(front, Serialized(b));
      assert bytes[|front|..|front| + |Serialized(b)|] == Serialized(b);
      ParsesExactlyTheSerialized(Serialized(b), b);
    }
  }

  /** A release runs the bundle it was made from, and only that one, for any base. */
  lemma ReleaseRunsItsBundle(base: seq<byte>, b: Bundle)
    requires |Serialized(b)| + FOOTER_LEN < WORD_LIMIT
    ensures ReadOf(File(Released(base, Serialized(b)), true, true)) == Mounted(b) <==> Fits(b)
  {
    assert Carries(Released(base, Serialized(b)), b);
    ReadsExactlyWhatItCarries(Released(base, Serialized(b)), b);
  }
}
