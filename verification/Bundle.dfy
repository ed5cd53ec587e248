/** The checksummed bundle format: what the writer builds, what the reader accepts. The ZIP container is an ordered
    list of named members, which stores a name up to its first NUL; YAML and SHA-256 are parameters. */
module Bundle {
  import opened Wrappers
  import opened Sorting
  import opened Strings
  import opened DeepMerge

  const PACKAGE_FILENAME := "package.yaml"
  const CHECKSUM_FILENAME := "checksums.sha256"

  /** A ZIP header holds the length of a member name in two bytes. */
  const ZIP_NAME_LIMIT := 65535

  type Archive = seq<(string, Bytes)>

  datatype BundleError =
    | UnsafePath | NonCanonicalPath | ReservedMember | MissingPackage | MissingChecksums | BadPackage
    | UnsupportedFormat | UnsupportedSchema | MissingField | BadResources | BadChecksumEntry | NotCovered
    | ChecksumMismatch

  /** The fields of `package.yaml`; an absent field is None. */
  datatype Envelope = Envelope(
    format: Option<string>,
    schemaVersion: Option<string>,
    kind: Option<string>,
    toolVersion: Option<string>,
    createdAt: Option<string>,
    resources: Option<Json>)

  const FORMAT := "rag-eval-bundle"
  const SUPPORTED_SCHEMA_VERSION := "1"

  predicate EnvelopeOk(e: Envelope) {
    && e.format == Some(FORMAT) && e.schemaVersion == Some(SUPPORTED_SCHEMA_VERSION)
    && e.kind.Some? && e.toolVersion.Some? && e.createdAt.Some? && e.resources.Some? && e.resources.value.Mapping?
  }

  /** The parts of the format that the model takes as given: the two reserved member names, the hexadecimal SHA-256
      digest, and YAML, where `load` is None unless the bytes parse to a mapping. */
  datatype Codec = Codec(
    package: string,
    checksums: string,
    sha256: Bytes -> string,
    dump: Envelope -> Bytes,
    load: Bytes -> Option<Envelope>)
  {
    ghost predicate Valid() {
      && package != checksums && PlainName(package) && PlainName(checksums)
      && (forall b :: |sha256(b)| == 64 && IsAscii(sha256(b)) && ' ' !in sha256(b) && !HasBreak(sha256(b)))
      && (forall p :: load(dump(p)) == Some(p))
    }
  }

  /** A single printable component that fits into a ZIP header. */
  predicate PlainName(name: string) {
    name !in {"", ".", ".."} && '/' !in name && '\\' !in name && IsAscii(name) && !HasBreak(name) && '\0' !in name
    && |name| <= ZIP_NAME_LIMIT
  }

  lemma ReservedNamesArePlain()
    ensures PlainName(PACKAGE_FILENAME) && PlainName(CHECKSUM_FILENAME) && PACKAGE_FILENAME != CHECKSUM_FILENAME
  {
    assert PACKAGE_FILENAME[0] != CHECKSUM_FILENAME[0];
  }

  function Shipped(sha256: Bytes -> string, dump: Envelope -> Bytes, load: Bytes -> Option<Envelope>): Codec {
    Codec(PACKAGE_FILENAME, CHECKSUM_FILENAME, sha256, dump, load)
  }

  /** The two reserved names of the source meet what the model asks of them. */
  lemma ShippedIsValid(sha256: Bytes -> string, dump: Envelope -> Bytes, load: Bytes -> Option<Envelope>)
    requires forall b :: |sha256(b)| == 64 && IsAscii(sha256(b)) && ' ' !in sha256(b) && !HasBreak(sha256(b))
    requires forall p :: load(dump(p)) == Some(p)
    ensures Shipped(sha256, dump, load).Valid()
    ensures Shipped(sha256, dump, load).package == "package.yaml"
    ensures Shipped(sha256, dump, load).checksums == "checksums.sha256"
  {
    ReservedNamesArePlain();
  }

  lemma PlainNamesAreSafe(name: string)
    requires PlainName(name)
    ensures IsSafe(name)
  {
    SplitOne(name, '/');
    SafeNameExactly(name);
  }

  // ----- member names -----

  predicate Kept(part: string) {
    part != "" && part != "."
  }

  function PathParts(components: seq<string>): (r: seq<string>)
    ensures forall i :: 0 <= i < |r| ==> r[i] in components && Kept(r[i])
  {
    if components == [] then []
    else
      var rest := PathParts(components[1..]);
      if Kept(components[0]) then [components[0]] + rest else rest
  }

  /** `str(PurePosixPath(name))` of a relative name. */
  function PathString(parts: seq<string>): string {
    if parts == [] then "." else Join(parts, '/')
  }

  function SafeName(name: string): Result<string, BundleError> {
    var parts := PathParts(Split(name, '/'));
    if name == "" || name[0] == '/' || ".." in parts then Err(UnsafePath)
    else if PathString(parts) != name || '\\' in name then Err(NonCanonicalPath)
    else Ok(name)
  }

  predicate IsSafe(name: string) {
    SafeName(name).Ok?
  }

  lemma {:induction false} AllKept(components: seq<string>)
    requires forall i :: 0 <= i < |components| ==> Kept(components[i])
    ensures PathParts(components) == components
  {
    if components != [] {
      AllKept(components[1..]);
    }
  }

  /** A name is accepted exactly when it is "." or every component between slashes is a real name: not empty, not
      "." and not "..", with no backslash anywhere. */
  lemma SafeNameExactly(name: string)
    ensures IsSafe(name) <==>
            || name == "."
            || ('\\' !in name && forall i :: 0 <= i < |Split(name, '/')| ==> Split(name, '/')[i] !in {"", ".", ".."})
  {
    var components := Split(name, '/');
    var parts := PathParts(components);
    JoinSplit(name, '/');
    if IsSafe(name) && parts != [] {
      SplitJoin(parts, '/');
    }
    if forall i :: 0 <= i < |components| ==> components[i] !in {"", ".", ".."} {
      AllKept(components);
      FirstComponent(name);
    }
    if name == "." {
      SplitOne(name, '/');
      assert PathParts(["."]) == PathParts([]);
    }
  }

  lemma FirstComponent(name: string)
    ensures name == "" || name[0] == '/' ==> Split(name, '/')[0] == ""
  {
  }

  // ----- the checksum file -----

  function Line(codec: Codec, member: (string, Bytes)): string {
    codec.sha256(member.1) + "  " + member.0
  }

  function ChecksumText(codec: Codec, members: Archive): string {
    if members == [] then "" else Line(codec, members[0]) + "\n" + ChecksumText(codec, members[1..])
  }

  /** One dictionary entry per line; a later line for the same name replaces an earlier one. */
  function ParseLines(lines: seq<string>): Option<map<string, string>> {
    if lines == [] then Some(map[])
    else
      var front, last := ParseLines(lines[..|lines| - 1]), lines[|lines| - 1];
      if front.None? then None else ParseLine(front.value, last)
  }

  function ParseLine(sums: map<string, string>, line: string): Option<map<string, string>> {
    var parsed := Partition(line);
    if parsed.None? || |parsed.value.0| != 64 || !IsSafe(parsed.value.1) then None
    else Some(sums[parsed.value.1 := parsed.value.0])
  }

  /** A digest of 64 characters, the first double space, and a safe name. */
  ghost predicate IsEntry(line: string, digest: string, name: string) {
    && line == digest + "  " + name && |digest| == 64 && IsSafe(name)
    && forall k: nat :: k < 64 ==> !DoubleSpaceAt(line, k)
  }

  ghost predicate HasEntry(line: string) {
    exists digest, name :: IsEntry(line, digest, name)
  }

  /** Among the lines for `name`, the last one has this digest. */
  ghost predicate LastEntry(lines: seq<string>, digest: string, name: string) {
    exists i :: 0 <= i < |lines| && IsEntry(lines[i], digest, name)
                && forall j, other :: i < j < |lines| ==> !IsEntry(lines[j], other, name)
  }

  lemma EntryExactly(sums: map<string, string>, line: string)
    ensures ParseLine(sums, line).Some? <==> HasEntry(line)
    ensures forall digest, name :: IsEntry(line, digest, name) ==> ParseLine(sums, line) == Some(sums[name := digest])
  {
    forall digest, name | IsEntry(line, digest, name)
      ensures ParseLine(sums, line) == Some(sums[name := digest])
    {
      PartitionExactly(line, digest, name);
    }
    if ParseLine(sums, line).Some? {
      var (digest, name) := Partition(line).value;
      PartitionExactly(line, digest, name);
      assert IsEntry(line, digest, name);
    }
  }

  lemma LastEntrySnoc(front: seq<string>, line: string, digest: string, name: string)
    requires IsEntry(line, digest, name)
    ensures LastEntry(front + [line], digest, name)
    ensures forall d :: LastEntry(front + [line], d, name) ==> d == digest
    ensures forall d, n :: n != name ==> (LastEntry(front + [line], d, n) <==> LastEntry(front, d, n))
  {
    var lines := front + [line];
    assert IsEntry(lines[|front|], digest, name);
    assert forall i :: 0 <= i < |front| ==> lines[i] == front[i];
    forall d, n | IsEntry(line, d, n) ensures d == digest && n == name {
      PartitionExactly(line, d, n);
      PartitionExactly(line, digest, name);
    }
    forall d, n | n != name && LastEntry(lines, d, n) ensures LastEntry(front, d, n) {
      var i :| 0 <= i < |lines| && IsEntry(lines[i], d, n)
               && forall j, other :: i < j < |lines| ==> !IsEntry(lines[j], other, n);
      assert i < |front| && IsEntry(front[i], d, n);
    }
  }

  /** A checksum file parses exactly when every line is an entry, to the last digest of each name. */
  lemma {:induction false} ParsedExactly(lines: seq<string>)
    ensures ParseLines(lines).Some? <==> forall i :: 0 <= i < |lines| ==> HasEntry(lines[i])
    ensures ParseLines(lines).Some? ==>
              forall digest, name ::
                (name in ParseLines(lines).value && ParseLines(lines).value[name] == digest) <==>
                  LastEntry(lines, digest, name)
  {
    if lines != [] {
      var front, last := lines[..|lines| - 1], lines[|lines| - 1];
      ParsedExactly(front);
      assert lines == front + [last];
      if ParseLines(front).Some? {
        EntryExactly(ParseLines(front).value, last);
        if HasEntry(last) {
          var digest, name :| IsEntry(last, digest, name);
          LastEntrySnoc(front, last, digest, name);
        }
      }
    }
  }

  // ----- archives -----

  /** The container cuts a member name at its first NUL. */
  function StoredName(name: string): (stored: string)
    ensures stored <= name && '\0' !in stored
    ensures stored == name <==> '\0' !in name
    ensures stored != name ==> name[|stored|] == '\0'
  {
    if name == "" || name[0] == '\0' then ""
    else
      var stored := [name[0]] + StoredName(name[1..]);
      assert name == [name[0]] + name[1..];
      stored
  }

  function Stored(members: Archive): Archive {
    seq(|members|, i requires 0 <= i < |members| => (StoredName(members[i].0), members[i].1))
  }

  function Names(archive: Archive): (r: set<string>)
    ensures forall name :: name in r <==> exists i :: 0 <= i < |archive| && archive[i].0 == name
  {
    set i | 0 <= i < |archive| :: archive[i].0
  }

  /** Reading a member by name finds the last one of that name. */
  function ReadMember(archive: Archive, name: string): Option<Bytes> {
    if archive == [] then None
    else if archive[|archive| - 1].0 == name then Some(archive[|archive| - 1].1)
    else ReadMember(archive[..|archive| - 1], name)
  }

  lemma {:induction false} ReadMemberExactly(archive: Archive, name: string)
    ensures ReadMember(archive, name).Some? <==> name in Names(archive)
  {
    if archive != [] {
      ReadMemberExactly(archive[..|archive| - 1], name);
      var n := |archive| - 1;
      if name in Names(archive) && archive[n].0 != name {
        var i :| 0 <= i < |archive| && archive[i].0 == name;
        assert archive[..n][i].0 == name;
      }
      if name in Names(archive[..n]) {
        var i :| 0 <= i < n && archive[..n][i].0 == name;
        assert archive[i].0 == name;
      }
    }
  }

  lemma {:induction false} ReadDistinct(archive: Archive, i: nat)
    requires i < |archive| && forall j, k :: 0 <= j < k < |archive| ==> archive[j].0 != archive[k].0
    ensures ReadMember(archive, archive[i].0) == Some(archive[i].1)
  {
    if i < |archive| - 1 {
      ReadDistinct(archive[..|archive| - 1], i);
    }
  }

  predicate NameLe(a: (string, Bytes), b: (string, Bytes)) {
    StringLe(a.0, b.0)
  }

  /** Each entry of the dictionary exactly once, in name order. */
  ghost predicate Lists(members: Archive, entries: map<string, Bytes>) {
    && SortedBy(members, NameLe)
    && (forall i, j :: 0 <= i < j < |members| ==> members[i].0 != members[j].0)
    && (forall i :: 0 <= i < |members| ==> members[i].0 in entries && members[i].1 == entries[members[i].0])
    && Names(members) == entries.Keys
  }

  /** The archive of `members`, the entries and the envelope in name order. */
  ghost predicate Built(codec: Codec, package: Envelope, entries: map<string, Bytes>, members: Archive,
                        archive: Archive) {
    var text := EncodeAscii(ChecksumText(codec, members));
    Lists(members, entries[codec.package := codec.dump(package)])
    && text.Some? && archive == Stored(members) + [(codec.checksums, text.value)]
  }

  /** An archive whose member names are the listed names themselves. */
  ghost predicate BuiltVerbatim(codec: Codec, package: Envelope, entries: map<string, Bytes>, archive: Archive) {
    archive != [] &&
    var members, last := archive[..|archive| - 1], archive[|archive| - 1];
    Lists(members, entries[codec.package := codec.dump(package)])
    && last.0 == codec.checksums && EncodeAscii(ChecksumText(codec, members)) == Some(last.1)
  }

  /** No entry name is cut by the container. */
  predicate NoNul(entries: map<string, Bytes>) {
    forall name :: name in entries ==> '\0' !in name
  }

  lemma VerbatimWithoutNul(
    codec: Codec, package: Envelope, entries: map<string, Bytes>, members: Archive, archive: Archive)
    requires codec.Valid() && NoNul(entries) && Built(codec, package, entries, members, archive)
    ensures archive[..|archive| - 1] == members && BuiltVerbatim(codec, package, entries, archive)
  {
    forall i | 0 <= i < |members| ensures StoredName(members[i].0) == members[i].0 {
      assert members[i].0 in entries || members[i].0 == codec.package;
    }
    assert Stored(members) == members;
  }

  predicate EntriesOk(codec: Codec, entries: map<string, Bytes>) {
    forall name :: name in entries ==> IsSafe(name) && name != codec.package && name != codec.checksums
  }

  // ----- the writer -----

  function Written(kind: string, toolVersion: string, createdAt: string, resources: Fields): Envelope {
    Envelope(Some(FORMAT), Some(SUPPORTED_SCHEMA_VERSION), Some(kind), Some(toolVersion), Some(createdAt),
             Some(Mapping(resources)))
  }

  class BundleWriter {
    const codec: Codec
    var entries: map<string, Bytes>

    constructor (codec: Codec)
      ensures entries == map[] && this.codec == codec
    {
      this.codec, entries := codec, map[];
    }

    /** Only safe, unreserved names enter the bundle; a refused name changes nothing. */
    method AddBytes(name: string, data: Bytes) returns (r: Result<string, BundleError>)
      requires EntriesOk(codec, entries)
      modifies this
      ensures EntriesOk(codec, entries)
      ensures r.Ok? <==> IsSafe(name) && name != codec.package && name != codec.checksums
      ensures entries == if r.Ok? then old(entries)[name := data] else old(entries)
    {
      r := SafeName(name);
      if r.Err? {
        return;
      }
      if r.value == codec.package || r.value == codec.checksums {
        return Err(ReservedMember);
      }
      entries := entries[r.value := data];
    }

    /** `build`: it raises exactly when some name is not ASCII or its stored part does not fit into a header. */
    method Build(kind: string, toolVersion: string, createdAt: string, resources: Fields)
      returns (archive: Option<Archive>, ghost members: Archive)
      requires codec.Valid()
      ensures archive.Some? <==> forall name :: name in entries ==> Storable(name)
      ensures EnvelopeOk(Written(kind, toolVersion, createdAt, resources))
      ensures Written(kind, toolVersion, createdAt, resources) ==
              Envelope(Some("rag-eval-bundle"), schemaVersion := Some("1"), kind := Some(kind),
                       toolVersion := Some(toolVersion), createdAt := Some(createdAt),
                       resources := Some(Mapping(resources)))
      ensures archive.Some? ==>
                Built(codec, Written(kind, toolVersion, createdAt, resources), entries, members, archive.value)
    {
      var package := Written(kind, toolVersion, createdAt, resources);
      var checksummed := entries[codec.package := codec.dump(package)];
      var sorted := SortedMembers(checksummed);
      members := sorted;
      AsciiText(codec, sorted);
      assert forall name :: name in checksummed <==> name in Names(sorted);
      if exists name :: name in checksummed && |StoredName(name)| > ZIP_NAME_LIMIT {
        return None, sorted;
      }
      var text := EncodeAscii(ChecksumText(codec, sorted));
      if text.None? {
        return None, sorted;
      }
      archive := Some(Stored(sorted) + [(codec.checksums, text.value)]);
    }
  }

  predicate Storable(name: string) {
    IsAscii(name) && |StoredName(name)| <= ZIP_NAME_LIMIT
  }

  /** Each entry exactly once, in any order. */
  ghost predicate ListsUnordered(members: Archive, entries: map<string, Bytes>) {
    && (forall i, j :: 0 <= i < j < |members| ==> members[i].0 != members[j].0)
    && (forall i :: 0 <= i < |members| ==> members[i].0 in entries && members[i].1 == entries[members[i].0])
    && Names(members) == entries.Keys
  }

  method Items(entries: map<string, Bytes>) returns (listed: Archive)
    ensures ListsUnordered(listed, entries)
  {
    listed := [];
    var todo := entries.Keys;
    while todo != {}
      invariant todo <= entries.Keys && Names(listed) == entries.Keys - todo
      invariant forall i, j :: 0 <= i < j < |listed| ==> listed[i].0 != listed[j].0
      invariant forall i :: 0 <= i < |listed| ==> listed[i].0 in entries && listed[i].1 == entries[listed[i].0]
      decreases todo
    {
      var name :| name in todo;
      NamesSnoc(listed, (name, entries[name]));
      assert name !in Names(listed);
      listed := listed + [(name, entries[name])];
      todo := todo - {name};
    }
  }

  /** `sorted(entries.items())`. */
  method SortedMembers(entries: map<string, Bytes>) returns (members: Archive)
    ensures Lists(members, entries)
  {
    var listed := Items(entries);
    members := SortBy(listed, NameLe);
    NameOrder();
    SortBySorts(listed, NameLe);
    PermutedMembers(listed, members);
    SortedLists(listed, members, entries);
  }

  lemma SortedLists(listed: Archive, members: Archive, entries: map<string, Bytes>)
    requires ListsUnordered(listed, entries) && SortedBy(members, NameLe) && Names(listed) == Names(members)
    requires forall m :: m in members <==> m in listed
    requires forall i, j :: 0 <= i < j < |members| ==> members[i].0 != members[j].0
    ensures Lists(members, entries)
  {
    forall i | 0 <= i < |members| ensures members[i].0 in entries && members[i].1 == entries[members[i].0] {
      assert members[i] in listed;
    }
  }

  lemma NamesSnoc(archive: Archive, member: (string, Bytes))
    ensures Names(archive + [member]) == Names(archive) + {member.0}
  {
    var all := archive + [member];
    forall name ensures name in Names(all) <==> name in Names(archive) + {member.0} {
      if i :| 0 <= i < |archive| && archive[i].0 == name {
        assert all[i].0 == name;
      }
      if name == member.0 {
        assert all[|archive|].0 == name;
      }
    }
  }

  lemma NameOrder()
    ensures TotalPreorder(NameLe)
  {
    StringOrder();
    forall x: (string, Bytes), y: (string, Bytes), z: (string, Bytes) | NameLe(x, y) && NameLe(y, z)
      ensures NameLe(x, z)
    {
      StringLeTransitive(x.0, y.0, z.0);
    }
    forall x: (string, Bytes), y: (string, Bytes) ensures NameLe(x, y) || NameLe(y, x) {
      StringLeTotal(x.0, y.0);
    }
  }

  lemma PermutedMembers(a: Archive, b: Archive)
    requires multiset(a) == multiset(b)
    requires forall i, j :: 0 <= i < j < |a| ==> a[i].0 != a[j].0
    ensures Names(a) == Names(b)
    ensures forall m :: m in b <==> m in a
    ensures forall i, j :: 0 <= i < j < |b| ==> b[i].0 != b[j].0
  {
    assert forall m :: m in a <==> m in multiset(a);
    assert forall m :: m in b <==> m in multiset(b);
    forall name ensures name in Names(a) <==> name in Names(b) {
      if i :| 0 <= i < |a| && a[i].0 == name {
        assert a[i] in b;
      }
      if i :| 0 <= i < |b| && b[i].0 == name {
        assert b[i] in a;
      }
    }
    forall i, j | 0 <= i < j < |b| ensures b[i].0 != b[j].0 {
      if b[i].0 == b[j].0 {
        assert b[i] in a && b[j] in a;
        assert b[i] == b[j];
        TwiceInMultiset(b, i, j);
        OnceInMultiset(a, b[i]);
      }
    }
  }

  lemma TwiceInMultiset(s: Archive, i: nat, j: nat)
    requires i < j < |s| && s[i] == s[j]
    ensures multiset(s)[s[i]] >= 2
  {
    assert s == s[..j] + [s[j]] + s[j + 1..];
    assert s[i] in s[..j];
    assert multiset(s[..j])[s[i]] >= 1;
  }

  lemma {:induction false} OnceInMultiset(s: Archive, m: (string, Bytes))
    requires forall i, j :: 0 <= i < j < |s| ==> s[i].0 != s[j].0
    ensures multiset(s)[m] <= 1
  {
    if s != [] {
      var front, last := s[..|s| - 1], s[|s| - 1];
      assert s == front + [last];
      OnceInMultiset(front, m);
      if last == m {
        assert m !in front;
      }
    }
  }

  lemma {:induction false} AsciiText(codec: Codec, members: Archive)
    requires codec.Valid()
    ensures IsAscii(ChecksumText(codec, members)) <==> forall name :: name in Names(members) ==> IsAscii(name)
  {
    if members != [] {
      var rest := members[1..];
      AsciiText(codec, rest);
      assert members == [members[0]] + rest;
      forall name ensures name in Names(members) <==> name == members[0].0 || name in Names(rest) {
        if i :| 0 <= i < |rest| && rest[i].0 == name {
          assert members[i + 1].0 == name;
        }
        if i :| 0 <= i < |members| && members[i].0 == name {
          assert i == 0 || rest[i - 1].0 == name;
        }
      }
      AsciiConcat(codec.sha256(members[0].1), "  ");
      AsciiConcat(codec.sha256(members[0].1) + "  ", members[0].0);
      AsciiConcat(Line(codec, members[0]), "\n");
      AsciiConcat(Line(codec, members[0]) + "\n", ChecksumText(codec, rest));
    }
  }

  lemma AsciiConcat(s: string, t: string)
    ensures IsAscii(s + t) <==> IsAscii(s) && IsAscii(t)
  {
    if IsAscii(s + t) {
      forall i | 0 <= i < |t| ensures t[i] < '\U{80}' {
        assert (s + t)[|s| + i] == t[i];
      }
      forall i | 0 <= i < |s| ensures s[i] < '\U{80}' {
        assert (s + t)[i] == s[i];
      }
    }
  }

  // ----- the reader -----

  /** What `BundleReader` checks: names, envelope, and that the checksum file covers exactly the members. */
  ghost predicate Accepted(codec: Codec, archive: Archive) {
    && (forall name :: name in Names(archive) ==> IsSafe(name))
    && codec.package in Names(archive) && codec.checksums in Names(archive)
    && EnvelopeAccepted(codec, archive)
    && var sums := DeclaredSums(codec, archive);
       sums.Some? && Covers(codec, archive, sums.value)
  }

  predicate EnvelopeAccepted(codec: Codec, archive: Archive) {
    var data := ReadMember(archive, codec.package);
    data.Some? &&
    var package := codec.load(data.value);
    package.Some? && EnvelopeOk(package.value)
  }

  function DeclaredSums(codec: Codec, archive: Archive): Option<map<string, string>> {
    var data := ReadMember(archive, codec.checksums);
    if data.None? || DecodeAscii(data.value).None? then None
    else ParseLines(SplitLines(DecodeAscii(data.value).value))
  }

  predicate Covers(codec: Codec, archive: Archive, sums: map<string, string>) {
    && sums.Keys == Names(archive) - {codec.checksums}
    && forall name :: name in sums ==>
         ReadMember(archive, name).Some? && codec.sha256(ReadMember(archive, name).value) == sums[name]
  }

  /** Opening a bundle succeeds exactly when the archive is accepted. */
  method OpenBundle(codec: Codec, archive: Archive) returns (r: Result<Envelope, BundleError>)
    ensures r.Ok? <==> Accepted(codec, archive)
    ensures r.Ok? ==> Some(r.value) == codec.load(ReadMember(archive, codec.package).value)
    ensures var safe := forall name :: name in Names(archive) ==> IsSafe(name);
            && (r == Err(UnsafePath) <==> !safe)
            && (r == Err(MissingPackage) <==> safe && codec.package !in Names(archive))
            && (r == Err(MissingChecksums) <==>
                  safe && codec.package in Names(archive) && codec.checksums !in Names(archive))
  {
    var names := Names(archive);
    if exists name :: name in names && !IsSafe(name) {
      return Err(UnsafePath);
    }
    if codec.package !in names {
      return Err(MissingPackage);
    }
    if codec.checksums !in names {
      return Err(MissingChecksums);
    }
    ReadMemberExactly(archive, codec.package);
    var package := codec.load(ReadMember(archive, codec.package).value);
    if package.None? {
      return Err(BadPackage);
    }
    r := VerifyPackage(codec, archive, package.value);
  }

  /** `_verify_package`: the envelope's fields, then every checksum. */
  method VerifyPackage(codec: Codec, archive: Archive, package: Envelope) returns (r: Result<Envelope, BundleError>)
    requires codec.checksums in Names(archive)
    ensures r.Ok? <==> EnvelopeOk(package) && DeclaredSums(codec, archive).Some?
                       && Covers(codec, archive, DeclaredSums(codec, archive).value)
    ensures r.Ok? ==> r.value == package
    ensures r.Err? ==> r.error !in {UnsafePath, MissingPackage, MissingChecksums}
    ensures r == Err(UnsupportedFormat) <==> package.format != Some("rag-eval-bundle")
    ensures r == Err(UnsupportedSchema) <==>
              package.format == Some("rag-eval-bundle") && package.schemaVersion != Some("1")
    ensures var supported := package.format == Some("rag-eval-bundle") && package.schemaVersion == Some("1");
            var present := package.kind.Some? && package.toolVersion.Some? && package.createdAt.Some?
                           && package.resources.Some?;
            && (r == Err(MissingField) <==> supported && !present)
            && (r == Err(BadResources) <==> supported && present && !package.resources.value.Mapping?)
            && (r == Err(BadChecksumEntry) <==>
                  supported && present && package.resources.value.Mapping? && DeclaredSums(codec, archive).None?)
  {
    if package.format != Some(FORMAT) {
      return Err(UnsupportedFormat);
    }
    if package.schemaVersion != Some(SUPPORTED_SCHEMA_VERSION) {
      return Err(UnsupportedSchema);
    }
    if package.kind.None? || package.toolVersion.None? || package.createdAt.None? || package.resources.None? {
      return Err(MissingField);
    }
    if !package.resources.value.Mapping? {
      return Err(BadResources);
    }
    ReadMemberExactly(archive, codec.checksums);
    var text := DecodeAscii(ReadMember(archive, codec.checksums).value);
    if text.None? {
      return Err(BadChecksumEntry);
    }
    var parsed := ParseChecksums(SplitLines(text.value));
    if parsed.None? {
      return Err(BadChecksumEntry);
    }
    var failure := CompareChecksums(codec, archive, parsed.value);
    if failure.Some? {
      return Err(failure.value);
    }
    return Ok(package);
  }

  method CompareChecksums(codec: Codec, archive: Archive, checksums: map<string, string>)
    returns (failure: Option<BundleError>)
    ensures failure.None? <==> Covers(codec, archive, checksums)
    ensures failure.Some? ==> failure.value in {NotCovered, ChecksumMismatch}
  {
    if checksums.Keys != Names(archive) - {codec.checksums} {
      return Some(NotCovered);
    }
    forall name | name in checksums ensures ReadMember(archive, name).Some? {
      ReadMemberExactly(archive, name);
    }
    if exists name :: name in checksums && codec.sha256(ReadMember(archive, name).value) != checksums[name] {
      return Some(ChecksumMismatch);
    }
    return None;
  }

  /** The reader's loop over the lines of the checksum file. */
  method ParseChecksums(lines: seq<string>) returns (parsed: Option<map<string, string>>)
    ensures parsed == ParseLines(lines)
  {
    var checksums: map<string, string> := map[];
    for i := 0 to |lines|
      invariant ParseLines(lines[..i]) == Some(checksums)
    {
      assert lines[..i + 1][..i] == lines[..i];
      var next := ParseLine(checksums, lines[i]);
      if next.None? {
        FailureStays(lines, i + 1);
        return None;
      }
      checksums := next.value;
    }
    assert lines[..|lines|] == lines;
    return Some(checksums);
  }

  lemma {:induction false} FailureStays(lines: seq<string>, i: nat)
    requires i <= |lines| && ParseLines(lines[..i]).None?
    ensures ParseLines(lines).None?
    decreases |lines| - i
  {
    if i < |lines| {
      assert lines[..i + 1][..i] == lines[..i];
      FailureStays(lines, i + 1);
    } else {
      assert lines[..i] == lines;
    }
  }

  // ----- round trip -----

  function LinesOf(codec: Codec, members: Archive): seq<string> {
    seq(|members|, i requires 0 <= i < |members| => Line(codec, members[i]))
  }

  lemma BreakConcat(s: string, t: string)
    ensures HasBreak(s + t) <==> HasBreak(s) || HasBreak(t)
  {
    if i :| 0 <= i < |s| && s[i] in LINE_BREAKS {
      assert (s + t)[i] == s[i];
    }
    if i :| 0 <= i < |t| && t[i] in LINE_BREAKS {
      assert (s + t)[|s| + i] == t[i];
    }
  }

  lemma LineHasNoBreak(codec: Codec, member: (string, Bytes))
    requires codec.Valid() && !HasBreak(member.0)
    ensures !HasBreak(Line(codec, member))
  {
    BreakConcat(codec.sha256(member.1), "  ");
    BreakConcat(codec.sha256(member.1) + "  ", member.0);
  }

  lemma LinesOfCons(codec: Codec, members: Archive)
    requires members != []
    ensures LinesOf(codec, members) == [Line(codec, members[0])] + LinesOf(codec, members[1..])
  {
  }

  lemma {:induction false} TextSplitsIntoLines(codec: Codec, members: Archive)
    requires codec.Valid() && forall i :: 0 <= i < |members| ==> !HasBreak(members[i].0)
    ensures SplitLines(ChecksumText(codec, members)) == LinesOf(codec, members)
  {
    if members != [] {
      TextSplitsIntoLines(codec, members[1..]);
      LineHasNoBreak(codec, members[0]);
      SplitLine(Line(codec, members[0]), ChecksumText(codec, members[1..]));
      LinesOfCons(codec, members);
    }
  }

  lemma LineParses(codec: Codec, sums: map<string, string>, member: (string, Bytes))
    requires codec.Valid() && IsSafe(member.0)
    ensures ParseLine(sums, Line(codec, member)) == Some(sums[member.0 := codec.sha256(member.1)])
  {
    PartitionAt(codec.sha256(member.1), member.0);
  }

  /** The lines of `members` parse to exactly their names and digests. */
  ghost predicate Parsed(codec: Codec, members: Archive) {
    var sums := ParseLines(LinesOf(codec, members));
    && sums.Some? && sums.value.Keys == Names(members)
    && forall i :: 0 <= i < |members| ==> sums.value[members[i].0] == codec.sha256(members[i].1)
  }

  lemma OneMoreLine(codec: Codec, front: Archive, last: (string, Bytes))
    requires codec.Valid() && IsSafe(last.0) && ParseLines(LinesOf(codec, front)).Some?
    ensures ParseLines(LinesOf(codec, front + [last])) ==
            Some(ParseLines(LinesOf(codec, front)).value[last.0 := codec.sha256(last.1)])
  {
    var lines := LinesOf(codec, front + [last]);
    assert lines[..|lines| - 1] == LinesOf(codec, front) && lines[|lines| - 1] == Line(codec, last);
    LineParses(codec, ParseLines(LinesOf(codec, front)).value, last);
  }

  lemma OneMoreParsed(codec: Codec, front: Archive, last: (string, Bytes))
    requires codec.Valid() && IsSafe(last.0) && Parsed(codec, front)
    requires forall i :: 0 <= i < |front| ==> front[i].0 != last.0
    ensures Parsed(codec, front + [last])
  {
    OneMoreLine(codec, front, last);
    NamesSnoc(front, last);
  }

  lemma {:induction false} LinesParse(codec: Codec, members: Archive)
    requires codec.Valid() && forall i :: 0 <= i < |members| ==> IsSafe(members[i].0)
    requires forall i, j :: 0 <= i < j < |members| ==> members[i].0 != members[j].0
    ensures Parsed(codec, members)
  {
    if members != [] {
      var front, last := members[..|members| - 1], members[|members| - 1];
      LinesParse(codec, front);
      OneMoreParsed(codec, front, last);
      assert members == front + [last];
    }
  }

  lemma {:induction false} SuffixHasNoBreak(line: string)
    requires !HasBreak(line) && Partition(line).Some?
    ensures !HasBreak(Partition(line).value.1)
  {
    if !(line[0] == ' ' && line[1] == ' ') {
      BreakConcat([line[0]], line[1..]);
      assert line == [line[0]] + line[1..];
      SuffixHasNoBreak(line[1..]);
    } else {
      BreakConcat(line[..2], line[2..]);
      assert line == line[..2] + line[2..];
    }
  }

  lemma {:induction false} ParsedNamesHaveNoBreak(lines: seq<string>, name: string)
    requires forall i :: 0 <= i < |lines| ==> !HasBreak(lines[i])
    requires ParseLines(lines).Some? && name in ParseLines(lines).value
    ensures !HasBreak(name)
  {
    if lines != [] {
      var front, last := lines[..|lines| - 1], lines[|lines| - 1];
      SuffixHasNoBreak(last);
      if name != Partition(last).value.1 {
        ParsedNamesHaveNoBreak(front, name);
      }
    }
  }

  lemma ListedRead(members: Archive, last: (string, Bytes), entries: map<string, Bytes>, name: string)
    requires Lists(members, entries) && name in entries && name != last.0
    ensures ReadMember(members + [last], name) == Some(entries[name])
  {
    assert name in Names(members);
    var i :| 0 <= i < |members| && members[i].0 == name;
    ReadDistinct(members, i);
    assert (members + [last])[..|members|] == members;
  }

  lemma PartsNames(members: Archive, last: (string, Bytes), entries: map<string, Bytes>, package: string, data: Bytes)
    requires Lists(members, entries[package := data]) && last.0 != package && last.0 !in entries
    ensures Names(members + [last]) == entries.Keys + {package, last.0}
    ensures ReadMember(members + [last], last.0) == Some(last.1)
  {
    NamesSnoc(members, last);
  }

  lemma PartsRead(members: Archive, last: (string, Bytes), entries: map<string, Bytes>, package: string, data: Bytes)
    requires Lists(members, entries[package := data]) && last.0 != package && last.0 !in entries && package !in entries
    ensures ReadMember(members + [last], package) == Some(data)
    ensures forall name :: name in entries ==> ReadMember(members + [last], name) == Some(entries[name])
  {
    ListedRead(members, last, entries[package := data], package);
    forall name | name in entries ensures ReadMember(members + [last], name) == Some(entries[name]) {
      ListedRead(members, last, entries[package := data], name);
    }
  }

  lemma VerbatimNames(codec: Codec, package: Envelope, entries: map<string, Bytes>, archive: Archive)
    requires codec.Valid() && EntriesOk(codec, entries) && BuiltVerbatim(codec, package, entries, archive)
    ensures Names(archive) == entries.Keys + {codec.package, codec.checksums}
    ensures ReadMember(archive, codec.checksums) == Some(archive[|archive| - 1].1)
    ensures ReadMember(archive, codec.package) == Some(codec.dump(package))
    ensures forall name :: name in entries ==> ReadMember(archive, name) == Some(entries[name])
  {
    var members, last := archive[..|archive| - 1], archive[|archive| - 1];
    assert archive == members + [last];
    PartsNames(members, last, entries, codec.package, codec.dump(package));
    PartsRead(members, last, entries, codec.package, codec.dump(package));
  }

  lemma StoredNames(members: Archive)
    ensures Names(Stored(members)) == set name | name in Names(members) :: StoredName(name)
  {
    var cut := set name | name in Names(members) :: StoredName(name);
    forall stored ensures stored in Names(Stored(members)) <==> stored in cut {
      if i :| 0 <= i < |members| && Stored(members)[i].0 == stored {
        assert members[i].0 in Names(members);
      }
      if name :| name in Names(members) && StoredName(name) == stored {
        var i :| 0 <= i < |members| && members[i].0 == name;
        assert Stored(members)[i].0 == stored;
      }
    }
  }

  lemma LastRead(front: Archive, last: (string, Bytes))
    ensures ReadMember(front + [last], last.0) == Some(last.1)
    ensures Names(front + [last]) == Names(front) + {last.0}
  {
    NamesSnoc(front, last);
  }

  /** The archive holds exactly the stored names of the entries, the envelope and the checksum file. When no name is
      cut, everything reads back as it was added. */
  lemma BuiltNames(codec: Codec, package: Envelope, entries: map<string, Bytes>, members: Archive, archive: Archive)
    requires codec.Valid() && EntriesOk(codec, entries) && Built(codec, package, entries, members, archive)
    ensures Names(archive) == (set name | name in entries :: StoredName(name)) + {codec.package, codec.checksums}
    ensures ReadMember(archive, codec.checksums) == EncodeAscii(ChecksumText(codec, members))
    ensures NoNul(entries) ==>
              && ReadMember(archive, codec.package) == Some(codec.dump(package))
              && forall name :: name in entries ==> ReadMember(archive, name) == Some(entries[name])
  {
    BuiltParts(codec, members, archive);
    StoredEntries(members, entries, codec.package, codec.dump(package));
    if NoNul(entries) {
      UncutReadsBack(codec, package, entries, members, archive);
    }
  }

  lemma BuiltParts(codec: Codec, members: Archive, archive: Archive)
    requires var text := EncodeAscii(ChecksumText(codec, members));
             text.Some? && archive == Stored(members) + [(codec.checksums, text.value)]
    ensures ReadMember(archive, codec.checksums) == EncodeAscii(ChecksumText(codec, members))
    ensures Names(archive) == Names(Stored(members)) + {codec.checksums}
  {
    LastRead(Stored(members), (codec.checksums, EncodeAscii(ChecksumText(codec, members)).value));
  }

  lemma StoredEntries(members: Archive, entries: map<string, Bytes>, package: string, data: Bytes)
    requires Lists(members, entries[package := data]) && '\0' !in package
    ensures Names(Stored(members)) == (set name | name in entries :: StoredName(name)) + {package}
  {
    StoredNames(members);
    assert Names(members) == entries.Keys + {package};
    CutNames(entries, package);
  }

  lemma UncutReadsBack(codec: Codec, package: Envelope, entries: map<string, Bytes>, members: Archive, archive: Archive)
    requires codec.Valid() && EntriesOk(codec, entries) && Built(codec, package, entries, members, archive)
    requires NoNul(entries)
    ensures ReadMember(archive, codec.package) == Some(codec.dump(package))
    ensures forall name :: name in entries ==> ReadMember(archive, name) == Some(entries[name])
  {
    VerbatimWithoutNul(codec, package, entries, members, archive);
    VerbatimNames(codec, package, entries, archive);
  }

  lemma CutNames(entries: map<string, Bytes>, package: string)
    requires '\0' !in package
    ensures (set name | name in entries.Keys + {package} :: StoredName(name))
            == (set name | name in entries :: StoredName(name)) + {package}
  {
    var all := set name | name in entries.Keys + {package} :: StoredName(name);
    forall stored
      ensures stored in all <==> stored in (set name | name in entries :: StoredName(name)) + {package}
    {
      assert package in entries.Keys + {package};
      if name :| name in entries && StoredName(name) == stored {
        assert name in entries.Keys + {package};
      }
    }
  }

  lemma NamesByCharacter(entries: map<string, Bytes>)
    ensures (forall name :: name in entries ==> !HasBreak(name) && '\0' !in name) <==>
              forall name, ch :: name in entries && ch in name ==>
                ch != '\0' && !(0x0A <= ch as int <= 0x0D) && !(0x1C <= ch as int <= 0x1E)
  {
    forall ch ensures ch in LINE_BREAKS <==> 0x0A <= ch as int <= 0x0D || 0x1C <= ch as int <= 0x1E {
      LineBreaksExactly(ch);
    }
    forall name ensures HasBreak(name) <==> exists ch :: ch in name && ch in LINE_BREAKS {
      if i :| 0 <= i < |name| && name[i] in LINE_BREAKS {
        assert name[i] in name;
      }
    }
  }

  /** The reader accepts what the writer built exactly when no entry name contains a line break or a NUL. */
  lemma RoundTripExactly(
    codec: Codec, package: Envelope, entries: map<string, Bytes>, members: Archive, archive: Archive)
    requires codec.Valid() && EntriesOk(codec, entries) && EnvelopeOk(package)
    requires Built(codec, package, entries, members, archive)
    ensures Accepted(codec, archive) <==> forall name :: name in entries ==> !HasBreak(name) && '\0' !in name
    ensures Accepted(codec, archive) <==>
              forall name, ch :: name in entries && ch in name ==>
                ch != '\0' && !(0x0A <= ch as int <= 0x0D) && !(0x1C <= ch as int <= 0x1E)
  {
    NamesByCharacter(entries);
    if Accepted(codec, archive) {
      forall name | name in entries ensures !HasBreak(name) && '\0' !in name {
        AcceptedName(codec, package, entries, members, archive, name);
      }
    } else if forall name :: name in entries ==> !HasBreak(name) && '\0' !in name {
      VerbatimWithoutNul(codec, package, entries, members, archive);
      BuiltIsAccepted(codec, package, entries, archive);
    }
  }

  /** The names an accepted archive declares are its member names, so they have neither line breaks nor NULs. */
  lemma DeclaredNames(codec: Codec, package: Envelope, entries: map<string, Bytes>, members: Archive, archive: Archive)
    requires codec.Valid() && EntriesOk(codec, entries) && Built(codec, package, entries, members, archive)
    requires Accepted(codec, archive)
    ensures ParseLines(SplitLines(ChecksumText(codec, members))).Some?
    ensures ParseLines(SplitLines(ChecksumText(codec, members))).value.Keys == Names(archive) - {codec.checksums}
    ensures forall name :: name in Names(archive) ==> !HasBreak(name) && '\0' !in name
  {
    BuiltNames(codec, package, entries, members, archive);
    var text := ChecksumText(codec, members);
    AsciiRoundTrip(text);
    assert DeclaredSums(codec, archive) == ParseLines(SplitLines(text));
    LinesHaveNoBreaks(text);
    forall name | name in Names(archive) ensures !HasBreak(name) && '\0' !in name {
      if name != codec.checksums {
        ParsedNamesHaveNoBreak(SplitLines(text), name);
      }
    }
  }

  /** A break in front of the first NUL would be stored; a NUL in front of the first break would be declared. */
  lemma NeitherCutNorBroken(name: string)
    requires !HasBreak(StoredName(name)) && '\0' !in name[..FirstBreak(name)]
    ensures !HasBreak(name) && '\0' !in name
  {
    var stored, k := StoredName(name), FirstBreak(name);
    assert forall i :: 0 <= i < |stored| ==> name[i] == stored[i] && stored[i] !in LINE_BREAKS;
    assert forall i :: 0 <= i < k ==> name[i] == name[..k][i];
    assert name[..|name|] == name;
  }

  /** Up to its first break every listed name is declared. */
  lemma DeclaredPiece(codec: Codec, members: Archive, i: nat)
    requires codec.Valid() && i < |members| && ParseLines(SplitLines(ChecksumText(codec, members))).Some?
    ensures members[i].0[..FirstBreak(members[i].0)] in ParseLines(SplitLines(ChecksumText(codec, members))).value
  {
    var piece := members[i].0[..FirstBreak(members[i].0)];
    FirstPieceIsALine(codec, members, i);
    PieceOfLine(codec, members[i]);
    PartitionAt(codec.sha256(members[i].1), piece);
    ParsedNamesAreKeys(SplitLines(ChecksumText(codec, members)), codec.sha256(members[i].1) + "  " + piece);
  }

  lemma AcceptedName(codec: Codec, package: Envelope, entries: map<string, Bytes>, members: Archive, archive: Archive,
                     name: string)
    requires codec.Valid() && EntriesOk(codec, entries) && Built(codec, package, entries, members, archive)
    requires Accepted(codec, archive) && name in entries
    ensures !HasBreak(name) && '\0' !in name
  {
    BuiltNames(codec, package, entries, members, archive);
    DeclaredNames(codec, package, entries, members, archive);
    assert StoredName(name) in Names(archive);
    assert name in Names(members);
    var i :| 0 <= i < |members| && members[i].0 == name;
    DeclaredPiece(codec, members, i);
    assert name[..FirstBreak(name)] in Names(archive);
    NeitherCutNorBroken(name);
  }

  /** What the first line made of a checksum entry is, whatever breaks the name contains. */
  lemma PieceOfLine(codec: Codec, member: (string, Bytes))
    requires codec.Valid()
    ensures var line := Line(codec, member);
            line[..FirstBreak(line)] == codec.sha256(member.1) + "  " + member.0[..FirstBreak(member.0)]
  {
    var head := codec.sha256(member.1) + "  ";
    BreakConcat(codec.sha256(member.1), "  ");
    FirstBreakAfter(head, member.0);
  }

  lemma {:induction false} FirstBreakAfter(head: string, tail: string)
    requires !HasBreak(head)
    ensures FirstBreak(head + tail) == |head| + FirstBreak(tail)
  {
    if head == "" {
      assert head + tail == tail;
    } else {
      assert (head + tail)[0] == head[0] && (head + tail)[1..] == head[1..] + tail;
      assert !HasBreak(head[1..]);
      FirstBreakAfter(head[1..], tail);
    }
  }

  lemma {:induction false} FirstBreakWithin(line: string, rest: string)
    ensures FirstBreak(line + "\n" + rest) == FirstBreak(line)
  {
    var k := FirstBreak(line);
    FirstBreakAfter(line[..k], line[k..] + "\n" + rest);
    assert line + "\n" + rest == line[..k] + (line[k..] + "\n" + rest);
    assert (line[k..] + "\n" + rest)[0] in LINE_BREAKS;
  }

  lemma RestAfter(line: string, rest: string, k: nat)
    requires k <= |line|
    ensures (line + "\n" + rest)[k..] == line[k..] + "\n" + rest
  {
  }

  /** Each checksum entry starts a line, even when the name in front of it contains breaks. */
  lemma {:induction false} LaterLinesStay(line: string, rest: string, x: string)
    requires x in SplitLines(rest)
    ensures x in SplitLines(line + "\n" + rest)
    decreases |line|
  {
    var s, k := line + "\n" + rest, FirstBreak(line);
    FirstBreakWithin(line, rest);
    var skip := SkipAt(s, k);
    assert SplitLines(s) == [s[..k]] + SplitLines(s[k + skip..]);
    if k + skip <= |line| {
      RestAfter(line, rest, k + skip);
      LaterLinesStay(line[k + skip..], rest, x);
    } else {
      assert s[k + skip..] == rest;
    }
  }

  lemma {:induction false} FirstPieceIsALine(codec: Codec, members: Archive, i: nat)
    requires i < |members|
    ensures var line := Line(codec, members[i]);
            line[..FirstBreak(line)] in SplitLines(ChecksumText(codec, members))
    decreases i
  {
    var first, rest := Line(codec, members[0]), ChecksumText(codec, members[1..]);
    if i == 0 {
      FirstBreakWithin(first, rest);
      var s := first + "\n" + rest;
      assert s[..FirstBreak(s)] == first[..FirstBreak(first)];
      assert SplitLines(s)[0] == s[..FirstBreak(s)];
    } else {
      FirstPieceIsALine(codec, members[1..], i - 1);
      var line := Line(codec, members[i]);
      LaterLinesStay(first, rest, line[..FirstBreak(line)]);
    }
  }

  lemma {:induction false} ParsedNamesAreKeys(lines: seq<string>, line: string)
    requires ParseLines(lines).Some? && line in lines
    ensures Partition(line).Some? && Partition(line).value.1 in ParseLines(lines).value
  {
    var front, last := lines[..|lines| - 1], lines[|lines| - 1];
    if line != last {
      assert line in front;
      ParsedNamesAreKeys(front, line);
    }
  }

  lemma BuiltSums(codec: Codec, package: Envelope, entries: map<string, Bytes>, archive: Archive)
    returns (sums: map<string, string>)
    requires codec.Valid() && EntriesOk(codec, entries) && BuiltVerbatim(codec, package, entries, archive)
    requires forall name :: name in entries ==> !HasBreak(name)
    ensures DeclaredSums(codec, archive) == Some(sums)
    ensures var members := archive[..|archive| - 1];
            && sums.Keys == Names(members)
            && forall i :: 0 <= i < |members| ==> sums[members[i].0] == codec.sha256(members[i].1)
  {
    VerbatimNames(codec, package, entries, archive);
    PlainNamesAreSafe(codec.package);
    var members := archive[..|archive| - 1];
    var text := ChecksumText(codec, members);
    forall i | 0 <= i < |members| ensures IsSafe(members[i].0) && !HasBreak(members[i].0) {
      assert members[i].0 in entries || members[i].0 == codec.package;
    }
    AsciiRoundTrip(text);
    TextSplitsIntoLines(codec, members);
    LinesParse(codec, members);
    sums := DeclaredSums(codec, archive).value;
  }

  lemma PartsCover(codec: Codec, members: Archive, last: (string, Bytes), checksummed: map<string, Bytes>,
                   sums: map<string, string>)
    requires Lists(members, checksummed) && last.0 == codec.checksums && codec.checksums !in checksummed
    requires sums.Keys == Names(members)
    requires forall i :: 0 <= i < |members| ==> sums[members[i].0] == codec.sha256(members[i].1)
    ensures Covers(codec, members + [last], sums)
  {
    var archive := members + [last];
    NamesSnoc(members, last);
    forall name | name in sums
      ensures ReadMember(archive, name).Some? && codec.sha256(ReadMember(archive, name).value) == sums[name]
    {
      var i :| 0 <= i < |members| && members[i].0 == name;
      ListedRead(members, last, checksummed, name);
    }
  }

  lemma BuiltCovers(codec: Codec, package: Envelope, entries: map<string, Bytes>, archive: Archive,
                    sums: map<string, string>)
    requires EntriesOk(codec, entries) && codec.package != codec.checksums
    requires BuiltVerbatim(codec, package, entries, archive)
    requires var members := archive[..|archive| - 1];
             && sums.Keys == Names(members)
             && forall i :: 0 <= i < |members| ==> sums[members[i].0] == codec.sha256(members[i].1)
    ensures Covers(codec, archive, sums)
  {
    var members, last := archive[..|archive| - 1], archive[|archive| - 1];
    assert archive == members + [last];
    var checksummed := entries[codec.package := codec.dump(package)];
    PartsCover(codec, members, last, checksummed, sums);
  }

  lemma BuiltIsAccepted(codec: Codec, package: Envelope, entries: map<string, Bytes>, archive: Archive)
    requires codec.Valid() && EntriesOk(codec, entries) && EnvelopeOk(package)
    requires BuiltVerbatim(codec, package, entries, archive)
    requires forall name :: name in entries ==> !HasBreak(name)
    ensures Accepted(codec, archive)
  {
    PlainNamesAreSafe(codec.package);
    PlainNamesAreSafe(codec.checksums);
    VerbatimNames(codec, package, entries, archive);
    var sums := BuiltSums(codec, package, entries, archive);
    BuiltCovers(codec, package, entries, archive, sums);
  }

  /** Two accepted archives with the same checksum file have identical members, or exhibit a digest collision. */
  lemma SameChecksumsSameMembers(codec: Codec, a: Archive, b: Archive) returns (x: Bytes, y: Bytes)
    requires Accepted(codec, a) && Accepted(codec, b)
    requires ReadMember(a, codec.checksums) == ReadMember(b, codec.checksums)
    ensures Names(a) == Names(b)
    ensures (x != y && codec.sha256(x) == codec.sha256(y)) || forall name :: ReadMember(a, name) == ReadMember(b, name)
  {
    x, y := [], [];
    var sums := DeclaredSums(codec, a).value;
    SameNames(codec, a, b);
    if name :| name in sums && ReadMember(a, name) != ReadMember(b, name) {
      ReadMemberExactly(a, name);
      ReadMemberExactly(b, name);
      x, y := ReadMember(a, name).value, ReadMember(b, name).value;
    } else {
      forall name ensures ReadMember(a, name) == ReadMember(b, name) {
        ReadMemberExactly(a, name);
        ReadMemberExactly(b, name);
      }
    }
  }

  lemma SameNames(codec: Codec, a: Archive, b: Archive)
    requires Accepted(codec, a) && Accepted(codec, b)
    requires ReadMember(a, codec.checksums) == ReadMember(b, codec.checksums)
    ensures DeclaredSums(codec, a) == DeclaredSums(codec, b) && Names(a) == Names(b)
    ensures DeclaredSums(codec, a).value.Keys == Names(a) - {codec.checksums}
  {
    var sums := DeclaredSums(codec, a).value;
    assert Names(a) == sums.Keys + {codec.checksums} == Names(b);
  }
}
