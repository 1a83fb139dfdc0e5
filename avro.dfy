/**
 * The Avro merge format (`AvroMerge`): the members' Avro container files are
 * joined into one. The first member fixes the schema, the codec and (unless
 * metadata is ignored) the metadata; a later member whose schema, codec or
 * metadata does not fit is not merged and goes to `unmerged`, once for every
 * reason it does not fit. Container files are read by `decode` and written
 * abstractly: the output is its schema, metadata, codec and records.
 */
module Avro {
  import opened Wrappers
  import opened FlowFiles

  const AVRO_MIME_TYPE: string := "application/avro-binary"

  /** `DataFileConstants.NULL_CODEC`: the codec of a container that names none. */
  const NULL_CODEC: string := "null"

  /** The "Metadata Strategy" property. */
  datatype MetadataStrategy = UseFirst | AllCommon | Ignore | DoNotMerge

  /**
   * A decoded container file: its schema, its metadata entries, the codec it
   * names (the `avro.codec` entry, read as a string) and its records.
   */
  datatype AvroContainer = AvroContainer(
    schema: string,
    metadata: map<string, seq<byte>>,
    codec: Option<string>,
    records: seq<seq<byte>>)

  /** The merged container written to the bundle. */
  datatype AvroOutput = AvroOutput(
    schema: string,
    metadata: map<string, seq<byte>>,
    codec: string,
    records: seq<seq<byte>>)

  /** The codec a container is written with: the one it names, else "null". */
  function CodecName(c: AvroContainer): (r: string)
    ensures c.codec.None? ==> r == NULL_CODEC
    ensures c.codec.Some? ==> r == c.codec.value
  {
    c.codec.GetOr(NULL_CODEC)
  }

  /**
   * The metadata kept from the first member: its entries whose key is not
   * reserved (`DataFileWriter.isReservedMeta`), or none under Ignore.
   */
  function KeptMetadata(strategy: MetadataStrategy, first: AvroContainer, reserved: string -> bool): (r: map<string, seq<byte>>)
    ensures strategy == Ignore ==> r == map[]
    ensures strategy != Ignore ==> forall k :: k in r <==> k in first.metadata && !reserved(k)
    ensures forall k | k in r :: r[k] == first.metadata[k]
  {
    if strategy == Ignore then map[] else map k | k in first.metadata && !reserved(k) :: first.metadata[k]
  }

  /**
   * Whether the key k of a later member's metadata is a reason not to merge
   * it: under DoNotMerge when its value differs from the kept one or the
   * first member had no such key; under AllCommon only when the first member
   * had the key with another value; never under UseFirst or Ignore.
   */
  predicate IsConflict(strategy: MetadataStrategy, kept: map<string, seq<byte>>, c: AvroContainer,
                       reserved: string -> bool, k: string)
    requires k in c.metadata
  {
    && (strategy == DoNotMerge || strategy == AllCommon)
    && !reserved(k)
    && (k !in kept || kept[k] != c.metadata[k])
    && (strategy != AllCommon || k in kept)
  }

  /** The conflicting keys among `keys`. */
  function Conflicts(strategy: MetadataStrategy, kept: map<string, seq<byte>>, c: AvroContainer,
                     reserved: string -> bool, keys: set<string>): set<string>
    requires keys <= c.metadata.Keys
  {
    set k | k in keys && IsConflict(strategy, kept, c, reserved, k)
  }

  /**
   * How many times a later member goes to `unmerged`: once for a different
   * schema, once per conflicting metadata key, once for a different codec.
   */
  function Rejections(strategy: MetadataStrategy, first: AvroContainer, c: AvroContainer, reserved: string -> bool): nat {
    (if c.schema != first.schema then 1 else 0)
    + |Conflicts(strategy, KeptMetadata(strategy, first, reserved), c, reserved, c.metadata.Keys)|
    + (if CodecName(c) != CodecName(first) then 1 else 0)
  }

  function Repeat<T>(x: T, n: nat): (r: seq<T>)
    ensures |r| == n && forall i | 0 <= i < n :: r[i] == x
  {
    if n == 0 then [] else Repeat(x, n - 1) + [x]
  }

  /** What the members after the first add to `unmerged`, in order. */
  function LaterUnmerged(strategy: MetadataStrategy, first: AvroContainer, decode: FlowFile -> AvroContainer,
                         reserved: string -> bool, later: seq<FlowFile>): seq<FlowFile>
  {
    if later == [] then []
    else
      var ff := later[|later| - 1];
      LaterUnmerged(strategy, first, decode, reserved, later[..|later| - 1])
      + Repeat(ff, Rejections(strategy, first, decode(ff), reserved))
  }

  /** The records the members after the first contribute: those of every member with no rejection. */
  function LaterRecords(strategy: MetadataStrategy, first: AvroContainer, decode: FlowFile -> AvroContainer,
                        reserved: string -> bool, later: seq<FlowFile>): seq<seq<byte>>
  {
    if later == [] then []
    else
      var ff := later[|later| - 1];
      LaterRecords(strategy, first, decode, reserved, later[..|later| - 1])
      + (if Rejections(strategy, first, decode(ff), reserved) == 0 then decode(ff).records else [])
  }

  /** The container `AvroMerge` writes for a bin. */
  function AvroMerged(strategy: MetadataStrategy, decode: FlowFile -> AvroContainer, reserved: string -> bool,
                      contents: seq<FlowFile>): AvroOutput
    requires |contents| > 0
  {
    var first := decode(contents[0]);
    AvroOutput(first.schema, KeptMetadata(strategy, first, reserved), CodecName(first),
               first.records + LaterRecords(strategy, first, decode, reserved, contents[1..]))
  }

  /** What `AvroMerge` adds to `unmerged` for a bin. */
  function AvroUnmerged(strategy: MetadataStrategy, decode: FlowFile -> AvroContainer, reserved: string -> bool,
                        contents: seq<FlowFile>): seq<FlowFile>
    requires |contents| > 0
  {
    LaterUnmerged(strategy, decode(contents[0]), decode, reserved, contents[1..])
  }

  /** The first member's metadata loop: each non-reserved entry is copied. */
  method CopyMetadata(c: AvroContainer, reserved: string -> bool) returns (metadata: map<string, seq<byte>>)
    ensures forall k :: k in metadata <==> k in c.metadata && !reserved(k)
    ensures forall k | k in metadata :: metadata[k] == c.metadata[k]
  {
    metadata := map[];
    var keys := c.metadata.Keys;
    while keys != {}
      invariant keys <= c.metadata.Keys
      invariant forall k :: k in metadata <==> k in c.metadata && k !in keys && !reserved(k)
      invariant forall k | k in metadata :: metadata[k] == c.metadata[k]
      decreases |keys|
    {
      var key :| key in keys;
      if !reserved(key) {
        metadata := metadata[key := c.metadata[key]];
      }
      keys := keys - {key};
    }
  }

  /** The metadata `merge` keeps from the first member, for each strategy. */
  method FirstMetadata(strategy: MetadataStrategy, first: AvroContainer, reserved: string -> bool)
    returns (metadata: map<string, seq<byte>>)
    ensures metadata == KeptMetadata(strategy, first, reserved)
  {
    metadata := map[];
    if strategy != Ignore {
      metadata := CopyMetadata(first, reserved);
    }
  }

  /**
   * The comparison `merge` makes for one metadata key of a later member under
   * DoNotMerge or AllCommon.
   */
  method KeyConflicts(key: string, c: AvroContainer, metadata: map<string, seq<byte>>,
                      strategy: MetadataStrategy, reserved: string -> bool) returns (conflict: bool)
    requires key in c.metadata && (strategy == DoNotMerge || strategy == AllCommon)
    ensures conflict == IsConflict(strategy, metadata, c, reserved, key)
  {
    conflict := false;
    if !reserved(key) {
      var metadatum := c.metadata[key];
      if key !in metadata || metadata[key] != metadatum {
        if strategy != AllCommon || key in metadata {
          conflict := true;
        }
      }
    }
  }

  /** Adding one key to the keys looked at adds it to the conflicts exactly when it conflicts. */
  lemma ConflictsStep(strategy: MetadataStrategy, kept: map<string, seq<byte>>, c: AvroContainer,
                      reserved: string -> bool, seen: set<string>, key: string)
    requires seen <= c.metadata.Keys && key in c.metadata && key !in seen
    ensures |Conflicts(strategy, kept, c, reserved, seen + {key})| ==
      |Conflicts(strategy, kept, c, reserved, seen)| + if IsConflict(strategy, kept, c, reserved, key) then 1 else 0
  {
    var before := Conflicts(strategy, kept, c, reserved, seen);
    if IsConflict(strategy, kept, c, reserved, key) {
      assert Conflicts(strategy, kept, c, reserved, seen + {key}) == before + {key};
    } else {
      assert Conflicts(strategy, kept, c, reserved, seen + {key}) == before;
    }
  }

  /**
   * `AvroMerge`: one per merge; `unmerged` collects the members that were not
   * merged, a member once per reason.
   */
  class AvroMerge {
    var unmerged: seq<FlowFile>

    constructor ()
      ensures unmerged == []
    {
      unmerged := [];
    }

    /** The metadata comparison for a later member: one `unmerged` entry per conflicting key. */
    method CheckMetadata(flowFile: FlowFile, c: AvroContainer, metadata: map<string, seq<byte>>,
                         strategy: MetadataStrategy, reserved: string -> bool)
      returns (conflicting: bool)
      modifies this
      ensures unmerged == old(unmerged) + Repeat(flowFile, |Conflicts(strategy, metadata, c, reserved, c.metadata.Keys)|)
      ensures conflicting <==> |Conflicts(strategy, metadata, c, reserved, c.metadata.Keys)| > 0
    {
      conflicting := false;
      var rejected: seq<FlowFile> := [];
      if strategy == DoNotMerge || strategy == AllCommon {
        var keys := c.metadata.Keys;
        ghost var seen: set<string> := {};
        while keys != {}
          invariant keys <= c.metadata.Keys && seen == c.metadata.Keys - keys
          invariant rejected == Repeat(flowFile, |Conflicts(strategy, metadata, c, reserved, seen)|)
          invariant conflicting <==> |rejected| > 0
          invariant unmerged == old(unmerged)
          decreases |keys|
        {
          var key :| key in keys;
          ConflictsStep(strategy, metadata, c, reserved, seen, key);
          var hit := KeyConflicts(key, c, metadata, strategy, reserved);
          if hit {
            conflicting := true;
            rejected := rejected + [flowFile];
          }
          keys := keys - {key};
          seen := seen + {key};
        }
        assert seen == c.metadata.Keys;
      } else {
        assert Conflicts(strategy, metadata, c, reserved, c.metadata.Keys) == {};
      }
      assert rejected == Repeat(flowFile, |Conflicts(strategy, metadata, c, reserved, c.metadata.Keys)|);
      unmerged := unmerged + rejected;
    }

    /**
     * The checks `merge` makes on a later member against the first one's
     * schema, kept metadata and codec; `canMerge` is false when any fails.
     */
    method CheckMember(flowFile: FlowFile, c: AvroContainer, schema: string, metadata: map<string, seq<byte>>,
                       inputCodec: string, strategy: MetadataStrategy, reserved: string -> bool,
                       ghost first: AvroContainer)
      returns (canMerge: bool)
      requires schema == first.schema && inputCodec == CodecName(first)
      requires metadata == KeptMetadata(strategy, first, reserved)
      modifies this
      ensures unmerged == old(unmerged) + Repeat(flowFile, Rejections(strategy, first, c, reserved))
      ensures canMerge <==> Rejections(strategy, first, c, reserved) == 0
    {
      ghost var bySchema: nat := if schema != c.schema then 1 else 0;
      ghost var byMetadata := |Conflicts(strategy, metadata, c, reserved, c.metadata.Keys)|;
      ghost var byCodec: nat := if inputCodec != CodecName(c) then 1 else 0;
      canMerge := true;
      if schema != c.schema {
        canMerge := false;
        unmerged := unmerged + [flowFile];
      }
      assert unmerged == old(unmerged) + Repeat(flowFile, bySchema) && (canMerge <==> bySchema == 0);
      ghost var afterSchema := unmerged;
      var conflicting := CheckMetadata(flowFile, c, metadata, strategy, reserved);
      if conflicting {
        canMerge := false;
      }
      ghost var afterMetadata := unmerged;
      var thisCodec := CodecName(c);
      if inputCodec != thisCodec {
        canMerge := false;
        unmerged := unmerged + [flowFile];
      }
      assert unmerged == afterMetadata + Repeat(flowFile, byCodec);
      RepeatSplit(flowFile, bySchema, byMetadata, byCodec);
    }

    /**
     * `merge`: the merged container, and `unmerged` extended with the
     * members that could not be merged.
     */
    method Merge(contents: seq<FlowFile>, strategy: MetadataStrategy, decode: FlowFile -> AvroContainer,
                 reserved: string -> bool)
      returns (output: AvroOutput)
      requires |contents| > 0
      modifies this
      ensures output == AvroMerged(strategy, decode, reserved, contents)
      ensures unmerged == old(unmerged) + AvroUnmerged(strategy, decode, reserved, contents)
    {
      ghost var start := unmerged;
      var first := decode(contents[0]);
      var schema := first.schema;
      var metadata := FirstMetadata(strategy, first, reserved);
      var inputCodec := CodecName(first);
      var records := first.records;
      var k := 1;
      while k < |contents|
        invariant 1 <= k <= |contents|
        invariant metadata == KeptMetadata(strategy, first, reserved)
        invariant records == first.records + LaterRecords(strategy, first, decode, reserved, contents[1..k])
        invariant unmerged == start + LaterUnmerged(strategy, first, decode, reserved, contents[1..k])
      {
        var flowFile := contents[k];
        var c := decode(flowFile);
        LaterStep(strategy, first, decode, reserved, contents, k);
        ghost var before := unmerged;
        var canMerge := CheckMember(flowFile, c, schema, metadata, inputCodec, strategy, reserved, first);
        AppendStep(start, LaterUnmerged(strategy, first, decode, reserved, contents[1..k]), before, unmerged,
                   Repeat(flowFile, Rejections(strategy, first, c, reserved)));
        ghost var prev := records;
        if canMerge {
          records := records + c.records;
        }
        AppendStep(first.records, LaterRecords(strategy, first, decode, reserved, contents[1..k]), prev, records,
                   if canMerge then c.records else []);
        k := k + 1;
      }
      assert contents[1..k] == contents[1..];
      assert unmerged == start + AvroUnmerged(strategy, decode, reserved, contents);
      output := AvroOutput(schema, metadata, inputCodec, records);
      assert output == AvroMerged(strategy, decode, reserved, contents);
    }

    /** `getUnmergedFlowFiles`. */
    function UnmergedFlowFiles(): seq<FlowFile>
      reads this
    {
      unmerged
    }
  }

  /** One step of a loop that appends x to an accumulator holding a + b. */
  lemma AppendStep<T>(a: seq<T>, b: seq<T>, prev: seq<T>, next: seq<T>, x: seq<T>)
    requires prev == a + b && next == prev + x
    ensures next == a + (b + x)
  {
  }

  lemma RepeatAppend<T>(x: T, n: nat, more: bool)
    ensures Repeat(x, n + if more then 1 else 0) == Repeat(x, n) + if more then [x] else []
  {
  }

  lemma {:induction false} RepeatConcat<T>(x: T, a: nat, b: nat)
    ensures Repeat(x, a + b) == Repeat(x, a) + Repeat(x, b)
  {
    if b > 0 {
      RepeatConcat(x, a, b - 1);
    }
  }

  lemma RepeatSplit<T>(x: T, a: nat, b: nat, c: nat)
    ensures Repeat(x, a + b + c) == Repeat(x, a) + Repeat(x, b) + Repeat(x, c)
  {
    RepeatConcat(x, a, b);
    RepeatConcat(x, a + b, c);
  }

  /** The spec functions after one more later member. */
  lemma LaterStep(strategy: MetadataStrategy, first: AvroContainer, decode: FlowFile -> AvroContainer,
                  reserved: string -> bool, contents: seq<FlowFile>, k: nat)
    requires 1 <= k < |contents|
    ensures var ff := contents[k]; var n := Rejections(strategy, first, decode(ff), reserved);
      && LaterUnmerged(strategy, first, decode, reserved, contents[1..k + 1])
         == LaterUnmerged(strategy, first, decode, reserved, contents[1..k]) + Repeat(ff, n)
      && LaterRecords(strategy, first, decode, reserved, contents[1..k + 1])
         == LaterRecords(strategy, first, decode, reserved, contents[1..k]) + (if n == 0 then decode(ff).records else [])
  {
    assert contents[1..k + 1][..k - 1] == contents[1..k];
  }

  // ----- Which members are merged -----

  /**
   * When a later member is merged, for each strategy: it must have the first
   * member's schema and codec; under DoNotMerge every non-reserved entry it
   * has must be in the first member's metadata with the same value; under
   * AllCommon only the entries the first member also has must agree; under
   * UseFirst and Ignore its metadata does not matter.
   */
  lemma AvroAcceptance(strategy: MetadataStrategy, first: AvroContainer, c: AvroContainer, reserved: string -> bool)
    ensures var fits := c.schema == first.schema && CodecName(c) == CodecName(first);
      && (strategy == DoNotMerge ==> (Rejections(strategy, first, c, reserved) == 0 <==>
            fits && forall k | k in c.metadata && !reserved(k) :: k in first.metadata && first.metadata[k] == c.metadata[k]))
      && (strategy == AllCommon ==> (Rejections(strategy, first, c, reserved) == 0 <==>
            fits && forall k | k in c.metadata && !reserved(k) && k in first.metadata :: first.metadata[k] == c.metadata[k]))
      && (strategy == UseFirst || strategy == Ignore ==> (Rejections(strategy, first, c, reserved) == 0 <==> fits))
  {
    var kept := KeptMetadata(strategy, first, reserved);
    var conflicts := Conflicts(strategy, kept, c, reserved, c.metadata.Keys);
    if |conflicts| != 0 {
      var k :| k in conflicts;
      assert IsConflict(strategy, kept, c, reserved, k);
    } else {
      assert conflicts == {};
      forall k | k in c.metadata && IsConflict(strategy, kept, c, reserved, k)
        ensures k in conflicts
      {
      }
    }
  }

  /** Repeat holds x n times and nothing else. */
  lemma {:induction false} RepeatCount<T>(x: T, n: nat, y: T)
    ensures multiset(Repeat(x, n))[y] == if x == y then n else 0
  {
    if n > 0 {
      RepeatCount(x, n - 1, y);
    }
  }

  /**
   * With distinct members, each later member appears in `unmerged` once per
   * reason it was not merged, and nothing else does.
   */
  lemma {:induction false} LaterUnmergedCount(strategy: MetadataStrategy, first: AvroContainer, decode: FlowFile -> AvroContainer,
                                              reserved: string -> bool, later: seq<FlowFile>, x: FlowFile)
    requires Distinct(later)
    ensures multiset(LaterUnmerged(strategy, first, decode, reserved, later))[x] ==
      if x in later then Rejections(strategy, first, decode(x), reserved) else 0
  {
    if later != [] {
      var init := later[..|later| - 1];
      var ff := later[|later| - 1];
      assert later == init + [ff];
      LaterUnmergedCount(strategy, first, decode, reserved, init, x);
      RepeatCount(ff, Rejections(strategy, first, decode(ff), reserved), x);
      if x == ff {
        assert x !in init;
      }
    }
  }

  /**
   * A member of a bin of distinct members goes to `unmerged` exactly when it
   * is not the first and fails one of the checks, and then once per failed
   * check.
   */
  lemma AvroUnmergedMembers(strategy: MetadataStrategy, decode: FlowFile -> AvroContainer, reserved: string -> bool,
                            contents: seq<FlowFile>, i: nat)
    requires i < |contents| && Distinct(contents)
    ensures multiset(AvroUnmerged(strategy, decode, reserved, contents))[contents[i]] ==
      if i == 0 then 0 else Rejections(strategy, decode(contents[0]), decode(contents[i]), reserved)
  {
    var later := contents[1..];
    LaterUnmergedCount(strategy, decode(contents[0]), decode, reserved, later, contents[i]);
    if i == 0 {
      assert contents[0] !in later;
    } else {
      assert later[i - 1] == contents[i];
    }
  }

  /** The records of every member, in order. */
  function AllRecords(decode: FlowFile -> AvroContainer, members: seq<FlowFile>): seq<seq<byte>> {
    if members == [] then [] else AllRecords(decode, members[..|members| - 1]) + decode(members[|members| - 1]).records
  }

  /**
   * Under UseFirst or Ignore, members that share the first one's schema and
   * codec are all merged: nothing is unmerged and the output holds every
   * member's records in order.
   */
  lemma {:induction false} LaterAllMerged(strategy: MetadataStrategy, first: AvroContainer, decode: FlowFile -> AvroContainer,
                                          reserved: string -> bool, later: seq<FlowFile>)
    requires strategy == UseFirst || strategy == Ignore
    requires forall i | 0 <= i < |later| :: decode(later[i]).schema == first.schema && CodecName(decode(later[i])) == CodecName(first)
    ensures LaterUnmerged(strategy, first, decode, reserved, later) == []
    ensures LaterRecords(strategy, first, decode, reserved, later) == AllRecords(decode, later)
  {
    if later != [] {
      var init := later[..|later| - 1];
      var ff := later[|later| - 1];
      LaterAllMerged(strategy, first, decode, reserved, init);
      AvroAcceptance(strategy, first, decode(ff), reserved);
    }
  }

  lemma AvroAllMerged(strategy: MetadataStrategy, decode: FlowFile -> AvroContainer, reserved: string -> bool,
                      contents: seq<FlowFile>)
    requires |contents| > 0 && (strategy == UseFirst || strategy == Ignore)
    requires forall i | 0 <= i < |contents| ::
      decode(contents[i]).schema == decode(contents[0]).schema && CodecName(decode(contents[i])) == CodecName(decode(contents[0]))
    ensures AvroUnmerged(strategy, decode, reserved, contents) == []
    ensures AvroMerged(strategy, decode, reserved, contents).records == AllRecords(decode, contents)
  {
    LaterAllMerged(strategy, decode(contents[0]), decode, reserved, contents[1..]);
    AllRecordsSplit(decode, contents);
  }

  /** The records of a non-empty bin are the first member's, then the others'. */
  lemma {:induction false} AllRecordsSplit(decode: FlowFile -> AvroContainer, members: seq<FlowFile>)
    requires |members| > 0
    ensures AllRecords(decode, members) == decode(members[0]).records + AllRecords(decode, members[1..])
  {
    if |members| > 1 {
      var init := members[..|members| - 1];
      AllRecordsSplit(decode, init);
      assert init[1..] == members[1..][..|members| - 2];
      assert init[0] == members[0];
    } else {
      assert members[..0] == [];
    }
  }

  // ----- Examples -----

  /**
   * Keep Only Common does not drop a key the later members lack: a second
   * member without metadata is merged, and the first member's key stays in
   * the output.
   */
  lemma AllCommonKeepsUnsharedKey(decode: FlowFile -> AvroContainer, reserved: string -> bool,
                                  a: FlowFile, b: FlowFile, k: string)
    requires k in decode(a).metadata && !reserved(k)
    requires decode(b).metadata == map[]
    requires decode(b).schema == decode(a).schema && CodecName(decode(b)) == CodecName(decode(a))
    ensures AvroUnmerged(AllCommon, decode, reserved, [a, b]) == []
    ensures k in AvroMerged(AllCommon, decode, reserved, [a, b]).metadata
  {
    TwoMemberBin(AllCommon, decode, reserved, a, b);
  }

  /**
   * Do Not Merge compares only the later member's own keys: a second member
   * lacking the first member's key is still merged.
   */
  lemma DoNotMergeIgnoresMissingKey(decode: FlowFile -> AvroContainer, reserved: string -> bool,
                                    a: FlowFile, b: FlowFile, k: string)
    requires k in decode(a).metadata && !reserved(k)
    requires decode(b).metadata == map[]
    requires decode(b).schema == decode(a).schema && CodecName(decode(b)) == CodecName(decode(a))
    ensures AvroUnmerged(DoNotMerge, decode, reserved, [a, b]) == []
    ensures AvroMerged(DoNotMerge, decode, reserved, [a, b]).records == decode(a).records + decode(b).records
  {
    TwoMemberBin(DoNotMerge, decode, reserved, a, b);
  }

  /** A two-member bin whose second member has no metadata and the first's schema and codec. */
  lemma TwoMemberBin(strategy: MetadataStrategy, decode: FlowFile -> AvroContainer, reserved: string -> bool,
                     a: FlowFile, b: FlowFile)
    requires decode(b).metadata == map[]
    requires decode(b).schema == decode(a).schema && CodecName(decode(b)) == CodecName(decode(a))
    ensures AvroUnmerged(strategy, decode, reserved, [a, b]) == []
    ensures AvroMerged(strategy, decode, reserved, [a, b]).records == decode(a).records + decode(b).records
    ensures AvroMerged(strategy, decode, reserved, [a, b]).metadata == KeptMetadata(strategy, decode(a), reserved)
  {
    var first := decode(a);
    assert [a, b][0] == a && [a, b][1..] == [b];
    assert [b][..0] == [] && [b][0] == b;
    assert Conflicts(strategy, KeptMetadata(strategy, first, reserved), decode(b), reserved, decode(b).metadata.Keys) == {};
    assert Rejections(strategy, first, decode(b), reserved) == 0;
    assert LaterUnmerged(strategy, first, decode, reserved, [b]) == [];
    assert LaterRecords(strategy, first, decode, reserved, [b]) == decode(b).records;
  }
}
