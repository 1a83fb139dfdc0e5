/**
 * `processBin`: validates and orders a Defragment bin, merges it with the
 * configured format, and assembles the attributes of the bundle.
 */
module MergeContent {
  import opened Wrappers
  import opened FlowFiles
  import Frag = Defragment
  import opened Config
  import Naming
  import Concatenation
  import Archives
  import Avro

  /** The "Merge Format" property. */
  datatype MergeFormat = Tar | Zip | FlowFileStreamV3 | FlowFileStreamV2 | FlowFileTarV1 | Concat | AvroFormat

  /** The content a merger writes to the bundle. */
  datatype MergedContent =
    | ConcatContent(bytes: seq<byte>)
    | TarContent(archive: Archives.TarArchive)
    | ZipContent(entries: seq<Archives.ZipEntry>)
    | PackagedContent(packages: seq<Archives.Package>)
    | AvroContent(output: Avro.AvroOutput)

  /** The processor's properties that `processBin` and the mergers read. */
  datatype Settings = Settings(
    strategy: MergeStrategy,
    format: MergeFormat,
    delimiters: Concatenation.Delimiters,
    keepPath: bool,
    compressionLevel: int,
    metadataStrategy: Avro.MetadataStrategy)

  /**
   * What the processor takes from its surroundings: the token that names a
   * bundle (`System.nanoTime`), the attribute strategy's merged attributes,
   * the bin's age and eviction reason, the filename the session gives a
   * FlowFile it creates, and the decoders and checks of the libraries the
   * mergers call.
   */
  datatype Environment = Environment(
    token: string,
    mergedAttributes: seq<FlowFile> -> map<string, string>,
    binAge: int,
    evictionReason: string,
    createdFilename: string,
    modifiedTime: FlowFile -> Option<string>,
    parseInstant: string -> Option<int>,
    zipRejects: (seq<string>, string) -> bool,
    avroDecode: FlowFile -> Avro.AvroContainer,
    avroReserved: string -> bool)

  /**
   * The result of processing a bin: every member routed to failure because
   * the fragments are not a complete set; the fragment sort throwing; or a
   * bundle with the attributes `processBin` puts on it, its content, and the
   * members the merger could not take, which go to failure.
   */
  datatype BinOutcome =
    | Rejected(failure: seq<FlowFile>, error: Frag.DefragError)
    | SortFailed
    | Merged(attributes: map<string, string>, content: MergedContent, mimeType: string, failure: seq<FlowFile>)

  /** The order the members are merged in: by fragment index under Defragment, else as binned. */
  function Arranged(strategy: MergeStrategy, bin: seq<FlowFile>): seq<FlowFile> {
    match strategy
    case BinPack => bin
    case Defragment => Frag.SortByIndex(Frag.SortKey, bin)
  }

  /** What the concatenating merger promises. */
  ghost predicate ConcatMerged(contents: seq<FlowFile>, settings: Settings, env: Environment,
                               content: MergedContent, filename: string, mimeType: string, unmerged: seq<FlowFile>)
    requires |contents| > 0 && Archives.AllHaveCoreAttributes(contents)
  {
    && content == ConcatContent(Concatenation.Concatenated(settings.delimiters, contents))
    && filename == Naming.CreateFilename(contents, env.token)
    && mimeType == Concatenation.CommonMimeType(contents).GetOr(Concatenation.OCTET_STREAM)
    && unmerged == []
  }

  /** What the TAR merger promises. */
  ghost predicate TarMerged(contents: seq<FlowFile>, settings: Settings, env: Environment,
                            content: MergedContent, filename: string, mimeType: string, unmerged: seq<FlowFile>)
    requires |contents| > 0 && Archives.AllHaveCoreAttributes(contents)
  {
    && content.TarContent?
    && (content.archive.bigNumberMode <==> exists i | 0 <= i < |contents| :: contents[i].Size() >= Archives.TAR_MAXSIZE)
    && |content.archive.entries| == |contents|
    && (forall i | 0 <= i < |contents| ::
          content.archive.entries[i] == Archives.TarEntryFor(contents[i], settings.keepPath, env.modifiedTime, env.parseInstant))
    && filename == Naming.CreateFilename(contents, env.token) + ".tar"
    && mimeType == Archives.TAR_MIME_TYPE
    && unmerged == []
  }

  /** What the ZIP merger promises: the members it could not add are left unmerged. */
  ghost predicate ZipMerged(contents: seq<FlowFile>, settings: Settings, env: Environment,
                            content: MergedContent, filename: string, mimeType: string, unmerged: seq<FlowFile>)
    requires |contents| > 0 && Archives.AllHaveCoreAttributes(contents)
  {
    var run := Archives.ZipWrite(env.zipRejects, settings.keepPath, contents);
    && content == ZipContent(run.entries)
    && filename == Naming.CreateFilename(contents, env.token) + ".zip"
    && mimeType == Archives.ZIP_MIME_TYPE
    && unmerged == Archives.RemoveEach(contents, run.accepted)
  }

  /** What the Avro merger promises: the members it rejects are left unmerged. */
  ghost predicate AvroBundled(contents: seq<FlowFile>, settings: Settings, env: Environment,
                             content: MergedContent, filename: string, mimeType: string, unmerged: seq<FlowFile>)
    requires |contents| > 0
  {
    && content == AvroContent(Avro.AvroMerged(settings.metadataStrategy, env.avroDecode, env.avroReserved, contents))
    && filename == env.createdFilename
    && mimeType == Avro.AVRO_MIME_TYPE
    && unmerged == Avro.AvroUnmerged(settings.metadataStrategy, env.avroDecode, env.avroReserved, contents)
  }

  /** What the FlowFile-packaging merger promises. */
  ghost predicate PackagedMerged(contents: seq<FlowFile>, version: Archives.PackagingFormat, env: Environment,
                                 content: MergedContent, filename: string, mimeType: string, unmerged: seq<FlowFile>)
    requires |contents| > 0 && HasCoreAttributes(contents[0])
  {
    && content.PackagedContent?
    && |content.packages| == |contents|
    && (forall i | 0 <= i < |contents| ::
          && content.packages[i].attributes == contents[i].attributes
          && content.packages[i].data == contents[i].content
          && content.packages[i].size == |contents[i].content|)
    && filename == Naming.CreateFilename(contents, env.token) + ".pkg"
    && mimeType == Archives.PackagedMimeType(version)
    && unmerged == []
  }

  /**
   * What the merger for the configured format promises: the content it
   * writes, the bundle's filename, the merged content type, and the members
   * left unmerged.
   */
  ghost predicate MergedBy(contents: seq<FlowFile>, settings: Settings, env: Environment,
                           content: MergedContent, filename: string, mimeType: string, unmerged: seq<FlowFile>)
    requires |contents| > 0 && Archives.AllHaveCoreAttributes(contents)
  {
    match settings.format
    case Concat => ConcatMerged(contents, settings, env, content, filename, mimeType, unmerged)
    case Tar => TarMerged(contents, settings, env, content, filename, mimeType, unmerged)
    case Zip => ZipMerged(contents, settings, env, content, filename, mimeType, unmerged)
    case AvroFormat => AvroBundled(contents, settings, env, content, filename, mimeType, unmerged)
    case _ => PackagedMerged(contents, PackagingOf(settings.format), env, content, filename, mimeType, unmerged)
  }

  /** The packager a FlowFile-packaging format uses. */
  function PackagingOf(format: MergeFormat): Archives.PackagingFormat {
    match format
    case FlowFileStreamV2 => Archives.FlowFileStreamV2
    case FlowFileTarV1 => Archives.FlowFileTarV1
    case _ => Archives.FlowFileStreamV3
  }

  /** `BinaryConcatenationMerge.merge`, then its content type. */
  method MergeConcat(contents: seq<FlowFile>, settings: Settings, env: Environment)
    returns (content: MergedContent, filename: string, mimeType: string, unmerged: seq<FlowFile>)
    requires |contents| > 0 && Archives.AllHaveCoreAttributes(contents)
    ensures ConcatMerged(contents, settings, env, content, filename, mimeType, unmerged)
  {
    var merger := new Concatenation.BinaryConcatenationMerge();
    var bytes;
    bytes, filename := merger.Merge(contents, settings.delimiters, env.token);
    content := ConcatContent(bytes);
    mimeType := merger.MergedContentType();
    unmerged := [];
  }

  /** `TarMerge.merge`. */
  method MergeTar(contents: seq<FlowFile>, settings: Settings, env: Environment)
    returns (content: MergedContent, filename: string, mimeType: string, unmerged: seq<FlowFile>)
    requires |contents| > 0 && Archives.AllHaveCoreAttributes(contents)
    ensures TarMerged(contents, settings, env, content, filename, mimeType, unmerged)
  {
    var archive;
    archive, filename := Archives.TarMerge(contents, settings.keepPath, env.modifiedTime, env.parseInstant, env.token);
    content := TarContent(archive);
    mimeType := Archives.TAR_MIME_TYPE;
    unmerged := [];
  }

  /** `ZipMerge.merge` on a new merger, then its unmerged members. */
  method MergeZip(contents: seq<FlowFile>, settings: Settings, env: Environment)
    returns (content: MergedContent, filename: string, mimeType: string, unmerged: seq<FlowFile>)
    requires |contents| > 0 && Archives.AllHaveCoreAttributes(contents)
    ensures ZipMerged(contents, settings, env, content, filename, mimeType, unmerged)
  {
    var merger := new Archives.ZipMerge(settings.compressionLevel);
    var entries;
    entries, filename := merger.Merge(contents, settings.keepPath, env.zipRejects, env.token);
    content := ZipContent(entries);
    mimeType := Archives.ZIP_MIME_TYPE;
    assert [] + contents == contents;
    unmerged := merger.UnmergedFlowFiles();
  }

  /** `AvroMerge.merge` on a new merger, then its unmerged members. */
  method MergeAvro(contents: seq<FlowFile>, settings: Settings, env: Environment)
    returns (content: MergedContent, filename: string, mimeType: string, unmerged: seq<FlowFile>)
    requires |contents| > 0
    ensures AvroBundled(contents, settings, env, content, filename, mimeType, unmerged)
  {
    var merger := new Avro.AvroMerge();
    var output := merger.Merge(contents, settings.metadataStrategy, env.avroDecode, env.avroReserved);
    content := AvroContent(output);
    filename := env.createdFilename;
    mimeType := Avro.AVRO_MIME_TYPE;
    unmerged := merger.UnmergedFlowFiles();
  }

  /** `FlowFileStreamMerger.merge` with the packager of `version`. */
  method MergePackaged(contents: seq<FlowFile>, version: Archives.PackagingFormat, env: Environment)
    returns (content: MergedContent, filename: string, mimeType: string, unmerged: seq<FlowFile>)
    requires |contents| > 0 && HasCoreAttributes(contents[0])
    ensures PackagedMerged(contents, version, env, content, filename, mimeType, unmerged)
  {
    var packages;
    packages, filename := Archives.StreamMerge(contents, env.token);
    content := PackagedContent(packages);
    mimeType := Archives.PackagedMimeType(version);
    unmerged := [];
  }

  /**
   * `merger.merge` followed by `getMergedContentType` and
   * `getUnmergedFlowFiles`, on the merger `processBin` creates for the
   * configured format.
   */
  method MergeBin(contents: seq<FlowFile>, settings: Settings, env: Environment)
    returns (content: MergedContent, filename: string, mimeType: string, unmerged: seq<FlowFile>)
    requires |contents| > 0 && Archives.AllHaveCoreAttributes(contents)
    ensures MergedBy(contents, settings, env, content, filename, mimeType, unmerged)
  {
    match settings.format
    case Concat =>
      content, filename, mimeType, unmerged := MergeConcat(contents, settings, env);
    case Tar =>
      content, filename, mimeType, unmerged := MergeTar(contents, settings, env);
    case Zip =>
      content, filename, mimeType, unmerged := MergeZip(contents, settings, env);
    case AvroFormat =>
      content, filename, mimeType, unmerged := MergeAvro(contents, settings, env);
    case _ =>
      content, filename, mimeType, unmerged := MergePackaged(contents, PackagingOf(settings.format), env);
  }

  /** The attribute keys `processBin` sets on every bundle. */
  const FixedKeys: set<string> := {MIME_TYPE, FILENAME, MERGE_COUNT, MERGE_BIN_AGE, MERGE_REASON}

  /**
   * The bundle's attributes: those of the attribute strategy, overridden by
   * the content type, the filename the merger chose, the member count, the
   * bin age and the reason the bin was evicted.
   */
  ghost predicate BundleAttributes(attributes: map<string, string>, merged: map<string, string>,
                                   mimeType: string, filename: string, count: int, binAge: int, reason: string)
  {
    && attributes.Keys == merged.Keys + FixedKeys
    && (forall k | k in merged && k !in FixedKeys :: attributes[k] == merged[k])
    && attributes[MIME_TYPE] == mimeType
    && attributes[FILENAME] == filename
    && attributes[MERGE_COUNT] == DecimalString(count)
    && attributes[MERGE_BIN_AGE] == DecimalString(binAge)
    && attributes[MERGE_REASON] == reason
  }

  /** The successive `put`s onto the attribute strategy's map. */
  method AssembleAttributes(merged: map<string, string>, mimeType: string, filename: string,
                            count: int, binAge: int, reason: string)
    returns (attributes: map<string, string>)
    ensures BundleAttributes(attributes, merged, mimeType, filename, count, binAge, reason)
  {
    attributes := merged;
    attributes := attributes[MIME_TYPE := mimeType];
    attributes := attributes[FILENAME := filename];
    attributes := attributes[MERGE_COUNT := DecimalString(count)];
    attributes := attributes[MERGE_BIN_AGE := DecimalString(binAge)];
    attributes := attributes[MERGE_REASON := reason];
  }

  /** `merge.count` reads back, as a Java `int`, as the number of members in the bin. */
  lemma MergeCountReadsBack(attributes: map<string, string>, merged: map<string, string>,
                            mimeType: string, filename: string, count: int, binAge: int, reason: string)
    requires BundleAttributes(attributes, merged, mimeType, filename, count, binAge, reason)
    requires 0 <= count <= INT_MAX
    ensures ParseInt(attributes[MERGE_COUNT]) == Some(count)
  {
    DecimalStringRoundTrip(count);
  }

  /**
   * `processBin`. Under Defragment a bin that fails validation goes to
   * failure whole; otherwise it is sorted by fragment index in place, which
   * throws when an index does not fit an `int`. The bin is then merged, and
   * the bundle gets its attributes; the members the merger rejected go to
   * failure.
   */
  method ProcessBin(bin: array<FlowFile>, settings: Settings, env: Environment) returns (outcome: BinOutcome)
    requires bin.Length > 0 && Archives.AllHaveCoreAttributes(bin[..])
    modifies bin
    ensures settings.strategy == Defragment && Frag.ValidationError(old(bin[..])).Some? ==>
      outcome == Rejected(old(bin[..]), Frag.ValidationError(old(bin[..])).value) && bin[..] == old(bin[..])
    ensures settings.strategy == Defragment && Frag.ValidationError(old(bin[..])).None? && Frag.SortThrows(old(bin[..])) ==>
      outcome == SortFailed
    ensures outcome.Merged? <==>
      settings.strategy == BinPack || (Frag.ValidationError(old(bin[..])).None? && !Frag.SortThrows(old(bin[..])))
    ensures outcome.Merged? ==>
      && bin[..] == Arranged(settings.strategy, old(bin[..]))
      && Archives.AllHaveCoreAttributes(bin[..])
      && FILENAME in outcome.attributes
      && MergedBy(bin[..], settings, env, outcome.content, outcome.attributes[FILENAME], outcome.mimeType, outcome.failure)
      && BundleAttributes(outcome.attributes, env.mergedAttributes(bin[..]), outcome.mimeType,
                          outcome.attributes[FILENAME], bin.Length, env.binAge, env.evictionReason)
  {
    if settings.strategy == Defragment {
      var error := Frag.GetDefragmentValidationError(bin[..]);
      if error.Some? {
        return Rejected(bin[..], error.value);
      }
      if Frag.SortThrows(bin[..]) {
        return SortFailed;
      }
      ghost var before := bin[..];
      Frag.SortFragments(Frag.SortKey, bin);
      Frag.SortByIndexPermutes(Frag.SortKey, before);
      SortedKeepsCoreAttributes(before, bin[..]);
    }
    var contents := bin[..];
    var content, filename, mimeType, unmerged := MergeBin(contents, settings, env);
    var attributes := AssembleAttributes(env.mergedAttributes(contents), mimeType, filename,
                                         bin.Length, env.binAge, env.evictionReason);
    outcome := Merged(attributes, content, mimeType, unmerged);
  }

  /** A permutation of members that all have core attributes has them too. */
  lemma SortedKeepsCoreAttributes(before: seq<FlowFile>, after: seq<FlowFile>)
    requires Archives.AllHaveCoreAttributes(before)
    requires multiset(after) == multiset(before)
    ensures Archives.AllHaveCoreAttributes(after)
  {
    forall i | 0 <= i < |after| ensures HasCoreAttributes(after[i]) {
      assert after[i] in multiset(before);
    }
  }

  /**
   * A Defragment bin that passes validation and does not make the sort throw
   * is merged as a permutation of its members in ascending fragment index.
   */
  lemma DefragmentMergesInIndexOrder(bin: seq<FlowFile>)
    requires Frag.ValidationError(bin).None? && !Frag.SortThrows(bin)
    ensures multiset(Arranged(Defragment, bin)) == multiset(bin)
    ensures var s := Arranged(Defragment, bin);
      forall i, j | 0 <= i < j < |s| ::
        Frag.ParseIntAttr(s[i]).Some? && Frag.ParseIntAttr(s[j]).Some?
        && Frag.ParseIntAttr(s[i]).value <= Frag.ParseIntAttr(s[j]).value
  {
    var s := Arranged(Defragment, bin);
    Frag.SortByIndexPermutes(Frag.SortKey, bin);
    Frag.SortByIndexSorted(Frag.SortKey, bin);
    forall i, j | 0 <= i < j < |s|
      ensures Frag.ParseIntAttr(s[i]).Some? && Frag.ParseIntAttr(s[j]).Some?
      ensures Frag.ParseIntAttr(s[i]).value <= Frag.ParseIntAttr(s[j]).value
    {
      assert |bin| >= 2 by { assert |multiset(s)| == |multiset(bin)|; }
      assert s[i] in multiset(bin) && s[j] in multiset(bin);
      assert Frag.SortKey(s[i]) <= Frag.SortKey(s[j]);
    }
  }

  /**
   * Under ZIP every member is either written to the archive or routed to
   * failure, and none is both.
   */
  lemma ZipAccountsForEveryMember(contents: seq<FlowFile>, settings: Settings, env: Environment,
                                  content: MergedContent, filename: string, mimeType: string, unmerged: seq<FlowFile>)
    requires |contents| > 0 && Archives.AllHaveCoreAttributes(contents)
    requires settings.format == Zip
    requires MergedBy(contents, settings, env, content, filename, mimeType, unmerged)
    ensures var run := Archives.ZipWrite(env.zipRejects, settings.keepPath, contents);
      multiset(unmerged) + multiset(run.accepted) == multiset(contents)
  {
    var run := Archives.ZipWrite(env.zipRejects, settings.keepPath, contents);
    assert unmerged == Archives.RemoveEach(contents, run.accepted);
    Archives.ZipWritePartition(env.zipRejects, settings.keepPath, contents);
    Archives.RemoveEachAppend(contents, run.accepted, []);
  }

  /**
   * Under ZIP, when the members are distinct, the ones routed to failure are
   * exactly those the archive rejected, in their order in the bin.
   */
  lemma ZipFailuresAreRejections(contents: seq<FlowFile>, settings: Settings, env: Environment,
                                 content: MergedContent, filename: string, mimeType: string, unmerged: seq<FlowFile>)
    requires |contents| > 0 && Archives.AllHaveCoreAttributes(contents) && Distinct(contents)
    requires settings.format == Zip
    requires MergedBy(contents, settings, env, content, filename, mimeType, unmerged)
    ensures unmerged == Archives.ZipWrite(env.zipRejects, settings.keepPath, contents).rejected
  {
    Archives.RemoveAccepted(env.zipRejects, settings.keepPath, contents);
  }
}
