/**
 * The archive merge formats: TAR (`TarMerge`), ZIP (`ZipMerge`) and the
 * FlowFile packaging formats (`FlowFileStreamMerger`). The encodings
 * themselves are not modelled: an archive is the list of entries written
 * into it, in order.
 */
module Archives {
  import opened Wrappers
  import opened FlowFiles
  import Naming

  /** `TarConstants.MAXSIZE`: 077777777777 (octal), the largest size the classic header holds. */
  const TAR_MAXSIZE: int := 8589934591

  const TAR_MIME_TYPE: string := "application/tar"
  const ZIP_MIME_TYPE: string := "application/zip"

  /** The members' filename and path attributes, which the framework always sets. */
  predicate AllHaveCoreAttributes(contents: seq<FlowFile>) {
    forall i | 0 <= i < |contents| :: HasCoreAttributes(contents[i])
  }

  /**
   * The name a member's entry gets in a TAR or ZIP archive: its filename,
   * behind its directory (`getPath`) when "Keep Path" is on.
   */
  function EntryName(ff: FlowFile, keepPath: bool): string
    requires HasCoreAttributes(ff)
  {
    (if keepPath then Naming.GetPath(ff.attributes[PATH]) else "") + ff.attributes[FILENAME]
  }

  /**
   * An entry name ends with the member's filename; what comes before it is
   * nothing unless "Keep Path" is on, and then it is a directory prefix that
   * is empty or ends in '/' and holds the path's names less a leading ".".
   */
  lemma EntryNameParts(ff: FlowFile, keepPath: bool)
    requires HasCoreAttributes(ff)
    ensures var name := EntryName(ff, keepPath); var filename := ff.attributes[FILENAME];
      var prefix := name[..|name| - |filename|];
      && |name| >= |filename| && name[|name| - |filename|..] == filename
      && (!keepPath ==> prefix == "")
      && (keepPath ==> Naming.Names(prefix) == Naming.DropLeadingDot(Naming.Names(ff.attributes[PATH])))
      && (prefix != "" ==> prefix[|prefix| - 1] == '/')
  {
    var name := EntryName(ff, keepPath);
    var filename := ff.attributes[FILENAME];
    var prefix := if keepPath then Naming.GetPath(ff.attributes[PATH]) else "";
    assert name == prefix + filename;
    assert name[..|name| - |filename|] == prefix;
    if ff.attributes[PATH] == "" {
      assert Naming.Split("/") == ["", ""];
      assert Naming.Names("") == [];
    } else {
      Naming.GetPathNames(ff.attributes[PATH]);
    }
  }

  // ----- TAR -----

  /** An entry's permission bits: the parsed `tar.permissions`, or the library default. */
  datatype TarMode = Parsed(bits: int) | Default

  /**
   * The mode `TarMerge` sets: `Integer.parseInt` of `tar.permissions` when it
   * is present and parses; the entry keeps its default mode otherwise. The
   * value is read in base 10 and not checked to be three octal digits.
   */
  function TarModeOf(ff: FlowFile): (r: TarMode)
    ensures r.Parsed? ==> TAR_PERMISSIONS in ff.attributes && ParseInt(ff.attributes[TAR_PERMISSIONS]) == Some(r.bits)
    ensures r.Default? ==> TAR_PERMISSIONS !in ff.attributes || ParseInt(ff.attributes[TAR_PERMISSIONS]).None?
  {
    match ff.Attr(TAR_PERMISSIONS)
    case None => Default
    case Some(v) =>
      match ParseInt(v)
      case Some(bits) => Parsed(bits)
      case None => Default
  }

  /** "999" is taken as the decimal 999 although it is not an octal mode. */
  lemma TarModeNotOctal(ff: FlowFile)
    requires ff.Attr(TAR_PERMISSIONS) == Some("999")
    ensures TarModeOf(ff) == Parsed(999)
  {
    IsNumberParse("999");
    assert DigitsValue("999") == 999 by {
      assert "999"[..2] == "99" && "99"[..1] == "9";
    }
  }

  /** `Character.isWhitespace` on the ASCII range. */
  predicate IsWhitespace(c: char) {
    c == ' ' || c == '\t' || c == '\n' || c == '\r' || c == 11 as char || c == 12 as char
    || (28 as char <= c <= 31 as char)
  }

  /** `StringUtils.isNotBlank`: present and holding a non-whitespace character. */
  predicate IsNotBlank(v: Option<string>) {
    v.Some? && exists i | 0 <= i < |v.value| :: !IsWhitespace(v.value[i])
  }

  /**
   * The modification time of an entry: the evaluated "Tar Modified Time"
   * value parsed by `parseInstant` (`Instant.parse(...).toEpochMilli()`, None
   * when it throws) if the value is not blank; unset otherwise.
   */
  function TarModTime(value: Option<string>, parseInstant: string -> Option<int>): (r: Option<int>)
    ensures r.Some? <==> IsNotBlank(value) && parseInstant(value.value).Some?
    ensures r.Some? ==> r == parseInstant(value.value)
  {
    if IsNotBlank(value) then parseInstant(value.value) else None
  }

  datatype TarEntry = TarEntry(name: string, size: nat, mode: TarMode, modTime: Option<int>, data: seq<byte>)

  /**
   * The archive `TarMerge` writes: whether the POSIX big-number extension is
   * switched on, and the entries in member order.
   */
  datatype TarArchive = TarArchive(bigNumberMode: bool, entries: seq<TarEntry>)

  /**
   * The entry written for one member; `modifiedTime` is the "Tar Modified
   * Time" property evaluated against that member.
   */
  function TarEntryFor(ff: FlowFile, keepPath: bool, modifiedTime: FlowFile -> Option<string>,
                       parseInstant: string -> Option<int>): TarEntry
    requires HasCoreAttributes(ff)
  {
    TarEntry(TarEntryName(EntryName(ff, keepPath)), ff.Size(), TarModeOf(ff), TarModTime(modifiedTime(ff), parseInstant), ff.content)
  }

  /**
   * The name a `TarArchiveEntry` records for the name it is built with:
   * Commons Compress drops every leading '/', so archived names are relative.
   */
  function TarEntryName(name: string): (r: string)
    ensures |r| <= |name|
    ensures r == [] || r[0] != '/'
  {
    if |name| > 0 && name[0] == '/' then TarEntryName(name[1..]) else name
  }

  /**
   * Only leading '/' characters are removed, and a name that does not start
   * with '/' is recorded as given.
   */
  lemma {:induction false} TarEntryNameDropsOnlySlashes(name: string)
    ensures TarEntryName(name) == name[|name| - |TarEntryName(name)|..]
    ensures forall i | 0 <= i < |name| - |TarEntryName(name)| :: name[i] == '/'
    ensures name == [] || name[0] != '/' ==> TarEntryName(name) == name
  {
    if |name| > 0 && name[0] == '/' {
      TarEntryNameDropsOnlySlashes(name[1..]);
    }
  }

  /** `getMaxEntrySize`: the largest member size, 0 for no members. */
  method GetMaxEntrySize(contents: seq<FlowFile>) returns (maxSize: nat)
    ensures forall i | 0 <= i < |contents| :: contents[i].Size() <= maxSize
    ensures contents == [] ==> maxSize == 0
    ensures contents != [] ==> exists i | 0 <= i < |contents| :: contents[i].Size() == maxSize
  {
    maxSize := 0;
    var k := 0;
    while k < |contents|
      invariant 0 <= k <= |contents|
      invariant forall i | 0 <= i < k :: contents[i].Size() <= maxSize
      invariant k == 0 ==> maxSize == 0
      invariant k > 0 ==> exists i | 0 <= i < k :: contents[i].Size() == maxSize
    {
      if contents[k].Size() > maxSize {
        maxSize := contents[k].Size();
      }
      k := k + 1;
    }
  }

  /**
   * `TarMerge.merge`: the bundle's filename and the archive, one entry per
   * member in order; big-number mode is on exactly when some member is at
   * least `TAR_MAXSIZE` bytes long.
   */
  method TarMerge(contents: seq<FlowFile>, keepPath: bool, modifiedTime: FlowFile -> Option<string>,
                  parseInstant: string -> Option<int>, token: string)
    returns (archive: TarArchive, filename: string)
    requires |contents| > 0 && AllHaveCoreAttributes(contents)
    ensures filename == Naming.CreateFilename(contents, token) + ".tar"
    ensures archive.bigNumberMode <==> exists i | 0 <= i < |contents| :: contents[i].Size() >= TAR_MAXSIZE
    ensures |archive.entries| == |contents|
    ensures forall i | 0 <= i < |contents| :: archive.entries[i] == TarEntryFor(contents[i], keepPath, modifiedTime, parseInstant)
  {
    filename := Naming.CreateFilename(contents, token) + ".tar";
    var maxSize := GetMaxEntrySize(contents);
    var bigNumberMode := maxSize >= TAR_MAXSIZE;
    var entries := WriteTarEntries(contents, keepPath, modifiedTime, parseInstant);
    archive := TarArchive(bigNumberMode, entries);
  }

  /** `TarMerge`'s write loop: one entry per member, in order. */
  method WriteTarEntries(contents: seq<FlowFile>, keepPath: bool, modifiedTime: FlowFile -> Option<string>,
                         parseInstant: string -> Option<int>)
    returns (entries: seq<TarEntry>)
    requires AllHaveCoreAttributes(contents)
    ensures |entries| == |contents|
    ensures forall i | 0 <= i < |contents| :: entries[i] == TarEntryFor(contents[i], keepPath, modifiedTime, parseInstant)
  {
    entries := [];
    var k := 0;
    while k < |contents|
      invariant 0 <= k <= |contents|
      invariant |entries| == k
      invariant forall i | 0 <= i < k :: entries[i] == TarEntryFor(contents[i], keepPath, modifiedTime, parseInstant)
    {
      var entry := WriteTarEntry(contents[k], keepPath, modifiedTime, parseInstant);
      entries := entries + [entry];
      k := k + 1;
    }
  }

  /** The body of `TarMerge`'s loop: the entry built for one member. */
  method WriteTarEntry(flowFile: FlowFile, keepPath: bool, modifiedTime: FlowFile -> Option<string>,
                       parseInstant: string -> Option<int>)
    returns (entry: TarEntry)
    requires HasCoreAttributes(flowFile)
    ensures entry == TarEntryFor(flowFile, keepPath, modifiedTime, parseInstant)
  {
    var path := if keepPath then Naming.GetPath(flowFile.attributes[PATH]) else "";
    var entryName := TarEntryName(path + flowFile.attributes[FILENAME]);
    assert entryName == TarEntryName(EntryName(flowFile, keepPath));
    var mode := Default;
    var permissionsVal := flowFile.Attr(TAR_PERMISSIONS);
    if permissionsVal.Some? {
      var parsed := ParseInt(permissionsVal.value);
      if parsed.Some? {
        mode := Parsed(parsed.value);
      }
    }
    assert mode == TarModeOf(flowFile);
    var modTime := modifiedTime(flowFile);
    var entryTime := None;
    if IsNotBlank(modTime) {
      entryTime := parseInstant(modTime.value);
    }
    assert entryTime == TarModTime(modTime, parseInstant);
    entry := TarEntry(entryName, flowFile.Size(), mode, entryTime, flowFile.content);
  }

  // ----- FlowFile packaging -----

  /** The three FlowFile packaging formats, each with its packager. */
  datatype PackagingFormat = FlowFileStreamV3 | FlowFileStreamV2 | FlowFileTarV1

  /** The media type of each packaging version (`StandardFlowFileMediaType`). */
  function PackagedMimeType(format: PackagingFormat): string {
    match format
    case FlowFileStreamV3 => "application/flowfile-v3"
    case FlowFileStreamV2 => "application/flowfile-v2"
    case FlowFileTarV1 => "application/flowfile-v1"
  }

  /** One packaged member: a copy of its attributes, its size and its bytes. */
  datatype Package = Package(attributes: map<string, string>, size: nat, data: seq<byte>)

  /**
   * `FlowFileStreamMerger.merge`: every member packaged in order with its
   * attributes, and the bundle named with ".pkg"; no member is left unmerged.
   */
  method StreamMerge(contents: seq<FlowFile>, token: string) returns (packages: seq<Package>, filename: string)
    requires |contents| > 0 && HasCoreAttributes(contents[0])
    ensures |packages| == |contents|
    ensures forall i | 0 <= i < |contents| ::
      packages[i].attributes == contents[i].attributes && packages[i].data == contents[i].content
      && packages[i].size == |packages[i].data|
    ensures filename == Naming.CreateFilename(contents, token) + ".pkg"
  {
    packages := [];
    var k := 0;
    while k < |contents|
      invariant 0 <= k <= |contents|
      invariant |packages| == k
      invariant forall i | 0 <= i < k ::
        packages[i].attributes == contents[i].attributes && packages[i].data == contents[i].content
        && packages[i].size == |packages[i].data|
    {
      var flowFile := contents[k];
      packages := packages + [Package(flowFile.attributes, flowFile.Size(), flowFile.content)];
      k := k + 1;
    }
    filename := Naming.CreateFilename(contents, token) + ".pkg";
  }

  // ----- ZIP -----

  datatype ZipEntry = ZipEntry(name: string, size: nat, data: seq<byte>)

  /**
   * The outcome of writing a sequence of members into a ZIP stream: the
   * entries written, the members whose entry was written, and the members
   * whose entry the stream refused (`putNextEntry` threw a ZipException).
   */
  datatype ZipRun = ZipRun(entries: seq<ZipEntry>, accepted: seq<FlowFile>, rejected: seq<FlowFile>)

  function EntryNames(entries: seq<ZipEntry>): (r: seq<string>)
    ensures |r| == |entries| && forall i | 0 <= i < |r| :: r[i] == entries[i].name
  {
    if entries == [] then [] else EntryNames(entries[..|entries| - 1]) + [entries[|entries| - 1].name]
  }

  /**
   * The ZIP write loop over `members`, one at a time: the stream refuses a
   * new entry when `rejects(names already written, new name)` holds.
   */
  function ZipWrite(rejects: (seq<string>, string) -> bool, keepPath: bool, members: seq<FlowFile>): (r: ZipRun)
    requires AllHaveCoreAttributes(members)
    ensures |r.entries| == |r.accepted| && |r.accepted| + |r.rejected| == |members|
  {
    if members == [] then ZipRun([], [], [])
    else
      var run := ZipWrite(rejects, keepPath, members[..|members| - 1]);
      var ff := members[|members| - 1];
      var name := EntryName(ff, keepPath);
      assert members == members[..|members| - 1] + [ff];
      if rejects(EntryNames(run.entries), name) then ZipRun(run.entries, run.accepted, run.rejected + [ff])
      else ZipRun(run.entries + [ZipEntry(name, ff.Size(), ff.content)], run.accepted + [ff], run.rejected)
  }

  /** The write loop after one more member. */
  lemma ZipWriteStep(rejects: (seq<string>, string) -> bool, keepPath: bool, members: seq<FlowFile>, k: nat)
    requires k < |members| && AllHaveCoreAttributes(members)
    ensures var run := ZipWrite(rejects, keepPath, members[..k]);
      var ff := members[k]; var name := EntryName(ff, keepPath);
      ZipWrite(rejects, keepPath, members[..k + 1]) ==
        if rejects(EntryNames(run.entries), name) then ZipRun(run.entries, run.accepted, run.rejected + [ff])
        else ZipRun(run.entries + [ZipEntry(name, ff.Size(), ff.content)], run.accepted + [ff], run.rejected)
  {
    assert members[..k + 1][..k] == members[..k];
  }

  /** Every member is either accepted or rejected, and not both. */
  lemma {:induction false} ZipWritePartition(rejects: (seq<string>, string) -> bool, keepPath: bool, members: seq<FlowFile>)
    requires AllHaveCoreAttributes(members)
    ensures var run := ZipWrite(rejects, keepPath, members);
      multiset(run.accepted) + multiset(run.rejected) == multiset(members)
  {
    if members != [] {
      var init := members[..|members| - 1];
      assert members == init + [members[|members| - 1]];
      ZipWritePartition(rejects, keepPath, init);
    }
  }

  /** `List.remove(Object)`: s without the first element equal to x. */
  function RemoveFirst<T(==)>(s: seq<T>, x: T): (r: seq<T>)
    ensures x in s ==> multiset(r) == multiset(s) - multiset{x}
    ensures x !in s ==> r == s
  {
    if s == [] then []
    else
      assert s == [s[0]] + s[1..];
      if s[0] == x then s[1..] else [s[0]] + RemoveFirst(s[1..], x)
  }

  /** s after `remove(x)` for each x of xs, in order. */
  function RemoveEach<T(==)>(s: seq<T>, xs: seq<T>): seq<T> {
    if xs == [] then s else RemoveFirst(RemoveEach(s, xs[..|xs| - 1]), xs[|xs| - 1])
  }

  lemma RemoveEachSnoc<T>(s: seq<T>, xs: seq<T>, x: T)
    ensures RemoveEach(s, xs + [x]) == RemoveFirst(RemoveEach(s, xs), x)
  {
    assert (xs + [x])[..|xs|] == xs;
  }

  /** The entry `ZipMerge` builds for one member before asking the archive to take it. */
  method WriteZipEntry(flowFile: FlowFile, keepPath: bool) returns (entry: ZipEntry)
    requires HasCoreAttributes(flowFile)
    ensures entry == ZipEntry(EntryName(flowFile, keepPath), flowFile.Size(), flowFile.content)
  {
    var path := if keepPath then Naming.GetPath(flowFile.attributes[PATH]) else "";
    var entryName := path + flowFile.attributes[FILENAME];
    entry := ZipEntry(entryName, flowFile.Size(), flowFile.content);
  }

  /** `ZipMerge`'s write loop after one more member: the entries, the accepted members and `unmerged`. */
  lemma ZipMergeStep(rejects: (seq<string>, string) -> bool, keepPath: bool, contents: seq<FlowFile>, k: nat,
                     start: seq<FlowFile>, entries: seq<ZipEntry>, accepted: seq<FlowFile>, unmerged: seq<FlowFile>)
    requires k < |contents| && AllHaveCoreAttributes(contents)
    requires entries == ZipWrite(rejects, keepPath, contents[..k]).entries
    requires accepted == ZipWrite(rejects, keepPath, contents[..k]).accepted
    requires unmerged == RemoveEach(start, accepted)
    ensures var ff := contents[k]; var next := ZipWrite(rejects, keepPath, contents[..k + 1]);
      var entry := ZipEntry(EntryName(ff, keepPath), ff.Size(), ff.content);
      if rejects(EntryNames(entries), entry.name) then
        entries == next.entries && accepted == next.accepted
      else
        (&& entries + [entry] == next.entries
         && accepted + [ff] == next.accepted
         && RemoveFirst(unmerged, ff) == RemoveEach(start, accepted + [ff]))
  {
    ZipWriteStep(rejects, keepPath, contents, k);
    RemoveEachSnoc(start, accepted, contents[k]);
  }

  /**
   * `ZipMerge`: one per merge. `unmerged` receives every member before the
   * archive is written, and loses each member whose entry was written.
   */
  class ZipMerge {
    const compressionLevel: int
    var unmerged: seq<FlowFile>

    constructor (compressionLevel: int)
      ensures this.compressionLevel == compressionLevel && unmerged == []
    {
      this.compressionLevel := compressionLevel;
      unmerged := [];
    }

    /**
     * `merge`: the entries written and the bundle's filename; `unmerged`
     * ends as the members added to it less those whose entry was written.
     */
    method Merge(contents: seq<FlowFile>, keepPath: bool, rejects: (seq<string>, string) -> bool, token: string)
      returns (entries: seq<ZipEntry>, filename: string)
      requires |contents| > 0 && AllHaveCoreAttributes(contents)
      modifies this
      ensures entries == ZipWrite(rejects, keepPath, contents).entries
      ensures unmerged == RemoveEach(old(unmerged) + contents, ZipWrite(rejects, keepPath, contents).accepted)
      ensures filename == Naming.CreateFilename(contents, token) + ".zip"
    {
      unmerged := unmerged + contents;
      ghost var start := unmerged;
      filename := Naming.CreateFilename(contents, token) + ".zip";
      entries := [];
      ghost var accepted: seq<FlowFile> := [];
      var k := 0;
      while k < |contents|
        invariant 0 <= k <= |contents|
        invariant entries == ZipWrite(rejects, keepPath, contents[..k]).entries
        invariant accepted == ZipWrite(rejects, keepPath, contents[..k]).accepted
        invariant unmerged == RemoveEach(start, accepted)
      {
        var flowFile := contents[k];
        ZipMergeStep(rejects, keepPath, contents, k, start, entries, accepted, unmerged);
        var zipEntry := WriteZipEntry(flowFile, keepPath);
        if !rejects(EntryNames(entries), zipEntry.name) {
          entries := entries + [zipEntry];
          accepted := accepted + [flowFile];
          unmerged := RemoveFirst(unmerged, flowFile);
        }
        k := k + 1;
      }
      assert contents[..k] == contents;
    }

    /** `getUnmergedFlowFiles`. */
    function UnmergedFlowFiles(): seq<FlowFile>
      reads this
    {
      unmerged
    }
  }

  lemma RemoveFirstLast<T>(s: seq<T>, x: T)
    requires x !in s
    ensures RemoveFirst(s + [x], x) == s
  {
    if s != [] {
      assert (s + [x])[1..] == s[1..] + [x];
      RemoveFirstLast(s[1..], x);
      assert s == [s[0]] + s[1..];
    }
  }

  lemma RemoveFirstAppend<T>(s: seq<T>, t: seq<T>, x: T)
    requires x in s
    ensures RemoveFirst(s + t, x) == RemoveFirst(s, x) + t
  {
    if s[0] != x {
      assert (s + t)[1..] == s[1..] + t;
      RemoveFirstAppend(s[1..], t, x);
    }
  }

  /**
   * With distinct members (a bin never holds the same FlowFile twice),
   * removing the accepted members one at a time leaves exactly the rejected
   * ones, in their order.
   */
  lemma {:induction false} RemoveAccepted(rejects: (seq<string>, string) -> bool, keepPath: bool, members: seq<FlowFile>)
    requires AllHaveCoreAttributes(members) && Distinct(members)
    ensures RemoveEach(members, ZipWrite(rejects, keepPath, members).accepted) == ZipWrite(rejects, keepPath, members).rejected
  {
    if members != [] {
      var n := |members| - 1;
      var init := members[..n];
      var ff := members[n];
      assert members == init + [ff];
      assert members[..n + 1] == members;
      assert Distinct(init);
      RemoveAccepted(rejects, keepPath, init);
      var run := ZipWrite(rejects, keepPath, init);
      ZipWriteStep(rejects, keepPath, members, n);
      ZipWritePartition(rejects, keepPath, init);
      RemoveEachAppend(init, run.accepted, [ff]);
      assert RemoveEach(members, run.accepted) == run.rejected + [ff];
      if !rejects(EntryNames(run.entries), EntryName(ff, keepPath)) {
        assert ff !in init;
        assert ff !in multiset(run.rejected);
        RemoveEachSnoc(members, run.accepted, ff);
        RemoveFirstLast(run.rejected, ff);
      }
    }
  }

  /** Removing elements of s from s + t leaves t untouched at the end. */
  lemma {:induction false} RemoveEachAppend<T>(s: seq<T>, xs: seq<T>, t: seq<T>)
    requires multiset(xs) <= multiset(s)
    ensures RemoveEach(s + t, xs) == RemoveEach(s, xs) + t
    ensures multiset(RemoveEach(s, xs)) == multiset(s) - multiset(xs)
  {
    if xs != [] {
      var init := xs[..|xs| - 1];
      var x := xs[|xs| - 1];
      assert xs == init + [x];
      RemoveEachAppend(s, init, t);
      var r := RemoveEach(s, init);
      assert x in multiset(r);
      RemoveFirstAppend(r, t, x);
    }
  }

  /** The refusal `java.util.zip` always makes: an entry name already written. */
  predicate DuplicateEntry(names: seq<string>, name: string) {
    name in names
  }

  /** When only duplicate names are refused, the written entries have distinct names. */
  lemma {:induction false} ZipNamesDistinct(keepPath: bool, members: seq<FlowFile>)
    requires AllHaveCoreAttributes(members)
    ensures Distinct(EntryNames(ZipWrite(DuplicateEntry, keepPath, members).entries))
  {
    if members != [] {
      var n := |members| - 1;
      ZipNamesDistinct(keepPath, members[..n]);
      ZipWriteStep(DuplicateEntry, keepPath, members, n);
      assert members[..n + 1] == members;
    }
  }

  /**
   * Two members with the same filename: the second one's entry is refused,
   * so it is the one left unmerged.
   */
  lemma ZipDuplicateFilename(a: FlowFile, b: FlowFile)
    requires HasCoreAttributes(a) && HasCoreAttributes(b)
    requires a.attributes[FILENAME] == b.attributes[FILENAME]
    ensures var run := ZipWrite(DuplicateEntry, false, [a, b]);
      run.accepted == [a] && run.rejected == [b]
  {
    assert [a, b][..1] == [a];
    assert [a][..0] == [];
    assert EntryNames([ZipEntry(EntryName(a, false), a.Size(), a.content)]) == [EntryName(a, false)];
  }
}
