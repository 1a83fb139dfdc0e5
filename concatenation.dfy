/**
 * The Binary Concatenation merge format (`BinaryConcatenationMerge`):
 * header, then every member's bytes with a demarcator between two members,
 * then footer; the output's MIME type is the members' common `mime.type`.
 */
module Concatenation {
  import opened Wrappers
  import opened FlowFiles
  import Naming

  const OCTET_STREAM: string := "application/octet-stream"

  datatype DelimiterStrategy = Filename | Text | NoDelimiters

  /**
   * The configured delimiters: for each of header, demarcator and footer, the
   * bytes its property yields when evaluated against a FlowFile (a file's
   * content under Filename, the UTF-8 text under Text), or None when the
   * property is not set.
   */
  datatype Delimiters = Delimiters(
    strategy: DelimiterStrategy,
    header: FlowFile -> Option<seq<byte>>,
    demarcator: FlowFile -> Option<seq<byte>>,
    footer: FlowFile -> Option<seq<byte>>)

  /**
   * `getDelimiterContent`: nothing under "Do Not Use Delimiters" or for an
   * empty bin, otherwise what the property yields for the first member.
   */
  function DelimiterContent(strategy: DelimiterStrategy, contents: seq<FlowFile>,
                            property: FlowFile -> Option<seq<byte>>): (r: Option<seq<byte>>)
    ensures r.Some? <==> strategy != NoDelimiters && contents != [] && property(contents[0]).Some?
    ensures r.Some? ==> r == property(contents[0])
  {
    if strategy == NoDelimiters || contents == [] then None else property(contents[0])
  }

  /** The members' contents separated by d: p1 + d + p2 + ... + d + pn. */
  function Join(parts: seq<seq<byte>>, d: seq<byte>): seq<byte> {
    if |parts| == 0 then []
    else if |parts| == 1 then parts[0]
    else parts[0] + d + Join(parts[1..], d)
  }

  function Flatten(parts: seq<seq<byte>>): seq<byte> {
    if parts == [] then [] else parts[0] + Flatten(parts[1..])
  }

  function Contents(flowFiles: seq<FlowFile>): (r: seq<seq<byte>>)
    ensures |r| == |flowFiles| && forall i | 0 <= i < |r| :: r[i] == flowFiles[i].content
  {
    if flowFiles == [] then [] else [flowFiles[0].content] + Contents(flowFiles[1..])
  }

  /** The merged content the concatenation writes. */
  function Concatenated(delimiters: Delimiters, flowFiles: seq<FlowFile>): seq<byte> {
    var s := delimiters.strategy;
    DelimiterContent(s, flowFiles, delimiters.header).GetOr([])
    + Join(Contents(flowFiles), DelimiterContent(s, flowFiles, delimiters.demarcator).GetOr([]))
    + DelimiterContent(s, flowFiles, delimiters.footer).GetOr([])
  }

  /**
   * The MIME type every member shares: Some when the bin is non-empty and
   * every member carries the first member's (present) `mime.type`.
   */
  ghost function CommonMimeType(flowFiles: seq<FlowFile>): Option<string> {
    if |flowFiles| > 0 && MIME_TYPE in flowFiles[0].attributes
       && forall i | 0 <= i < |flowFiles| :: flowFiles[i].Attr(MIME_TYPE) == Some(flowFiles[0].attributes[MIME_TYPE])
    then Some(flowFiles[0].attributes[MIME_TYPE])
    else None
  }

  /** How the common MIME type of a prefix changes when one more member is looked at. */
  lemma CommonMimeTypeStep(flowFiles: seq<FlowFile>, k: nat)
    requires k < |flowFiles|
    ensures CommonMimeType(flowFiles[..k + 1]) ==
      if k == 0 then flowFiles[0].Attr(MIME_TYPE)
      else match CommonMimeType(flowFiles[..k])
        case None => None
        case Some(m) => if flowFiles[k].Attr(MIME_TYPE) == Some(m) then Some(m) else None
  {
    var p, q := flowFiles[..k], flowFiles[..k + 1];
    assert forall i | 0 <= i < k :: q[i] == p[i];
    if k > 0 && CommonMimeType(p).None? && MIME_TYPE in q[0].attributes {
      var i :| 0 <= i < k && p[i].Attr(MIME_TYPE) != Some(p[0].attributes[MIME_TYPE]);
      assert q[i] == p[i];
    }
  }

  /** The join of one more prefix member. */
  lemma JoinPrefixStep(parts: seq<seq<byte>>, k: nat, d: seq<byte>)
    requires k < |parts|
    ensures Join(parts[..k + 1], d) == if k == 0 then parts[0] else Join(parts[..k], d) + d + parts[k]
  {
    if k > 0 {
      assert parts[..k + 1] == parts[..k] + [parts[k]];
      JoinSnoc(parts[..k], parts[k], d);
    }
  }

  /** Appending one more part to a join adds the demarcator, then the part. */
  lemma {:induction false} JoinSnoc(parts: seq<seq<byte>>, p: seq<byte>, d: seq<byte>)
    requires |parts| > 0
    ensures Join(parts + [p], d) == Join(parts, d) + d + p
  {
    if |parts| > 1 {
      assert (parts + [p])[1..] == parts[1..] + [p];
      JoinSnoc(parts[1..], p, d);
    }
  }

  /**
   * What the write loop has produced after k members: their join, followed
   * by the demarcator when more members are still to come.
   */
  function Written(parts: seq<seq<byte>>, k: nat, d: seq<byte>): seq<byte>
    requires k <= |parts|
  {
    Join(parts[..k], d) + if 0 < k < |parts| then d else []
  }

  /** Writing member k, then the demarcator unless it was the last one. */
  lemma WrittenStep(parts: seq<seq<byte>>, k: nat, d: seq<byte>)
    requires k < |parts|
    ensures Written(parts, k + 1, d) == Written(parts, k, d) + parts[k] + if k + 1 < |parts| then d else []
  {
    JoinPrefixStep(parts, k, d);
  }

  /** Once every member is written, nothing trails the join. */
  lemma WrittenAll(parts: seq<seq<byte>>, d: seq<byte>)
    ensures Written(parts, |parts|, d) == Join(parts, d)
  {
    assert parts[..|parts|] == parts;
  }

  /**
   * The write loop of `merge`: the member bytes with the demarcator after
   * every member but the last, between the header and the footer; and the
   * `bundleMimeTypeRef` bookkeeping, which ends holding the common MIME type.
   */
  method WriteConcatenation(contents: seq<FlowFile>, delimiters: Delimiters) returns (out: seq<byte>, bundleMimeType: Option<string>)
    ensures out == Concatenated(delimiters, contents)
    ensures bundleMimeType == CommonMimeType(contents)
  {
    var strategy := delimiters.strategy;
    var header := DelimiterContent(strategy, contents, delimiters.header);
    out := header.GetOr([]);
    var demarcator := DelimiterContent(strategy, contents, delimiters.demarcator);
    var d := demarcator.GetOr([]);
    ghost var parts := Contents(contents);
    ghost var head := out;
    assert parts[..0] == [];
    bundleMimeType := None;
    var isFirst := true;
    var k := 0;
    while k < |contents|
      invariant 0 <= k <= |contents|
      invariant isFirst <==> k == 0
      invariant out == head + Written(parts, k, d)
      invariant bundleMimeType == if k == 0 then None else CommonMimeType(contents[..k])
    {
      var flowFile := contents[k];
      WrittenStep(parts, k, d);
      out := out + flowFile.content;
      if k + 1 < |contents| {
        out := out + d;
      }
      var flowFileMimeType := flowFile.Attr(MIME_TYPE);
      if isFirst {
        bundleMimeType := flowFileMimeType;
        isFirst := false;
      } else {
        if bundleMimeType.Some? && bundleMimeType != flowFileMimeType {
          bundleMimeType := None;
        }
      }
      CommonMimeTypeStep(contents, k);
      k := k + 1;
    }
    var footer := DelimiterContent(strategy, contents, delimiters.footer);
    out := out + footer.GetOr([]);
    assert contents[..k] == contents;
    WrittenAll(parts, d);
    assert out == header.GetOr([]) + Join(parts, d) + footer.GetOr([]);
    if k == 0 {
      assert CommonMimeType(contents) == None;
    }
  }

  /**
   * `BinaryConcatenationMerge`: one per merge; its `mimeType` field starts as
   * application/octet-stream and takes the common MIME type if there is one.
   */
  class BinaryConcatenationMerge {
    var mimeType: string

    constructor ()
      ensures mimeType == OCTET_STREAM
    {
      mimeType := OCTET_STREAM;
    }

    /**
     * `merge`: the concatenated content and the bundle's filename; `token`
     * stands for `System.nanoTime()`.
     */
    method Merge(contents: seq<FlowFile>, delimiters: Delimiters, token: string) returns (content: seq<byte>, filename: string)
      requires |contents| > 0 && HasCoreAttributes(contents[0])
      modifies this
      ensures content == Concatenated(delimiters, contents)
      ensures filename == Naming.CreateFilename(contents, token)
      ensures mimeType == CommonMimeType(contents).GetOr(old(mimeType))
    {
      var bundleMimeType;
      content, bundleMimeType := WriteConcatenation(contents, delimiters);
      filename := Naming.CreateFilename(contents, token);
      if bundleMimeType.Some? {
        mimeType := bundleMimeType.value;
      }
    }

    /** `getMergedContentType`. */
    function MergedContentType(): string
      reads this
    {
      mimeType
    }
  }

  // ----- Properties of the concatenation -----

  /** Without delimiters the output is the members' bytes back to back. */
  lemma {:induction false} NoDelimitersIsFlatten(delimiters: Delimiters, flowFiles: seq<FlowFile>)
    requires delimiters.strategy == NoDelimiters
    ensures Concatenated(delimiters, flowFiles) == Flatten(Contents(flowFiles))
  {
    JoinEmpty(Contents(flowFiles));
  }

  lemma {:induction false} JoinEmpty(parts: seq<seq<byte>>)
    ensures Join(parts, []) == Flatten(parts)
  {
    if |parts| > 1 {
      JoinEmpty(parts[1..]);
    } else if |parts| == 1 {
      assert parts[1..] == [];
    }
  }

  function SumLengths(parts: seq<seq<byte>>): nat {
    if parts == [] then 0 else |parts[0]| + SumLengths(parts[1..])
  }

  /** One demarcator between each two members, none before the first or after the last. */
  lemma {:induction false} JoinLength(parts: seq<seq<byte>>, d: seq<byte>)
    requires |parts| > 0
    ensures |Join(parts, d)| == SumLengths(parts) + (|parts| - 1) * |d|
  {
    if |parts| > 1 {
      JoinLength(parts[1..], d);
    } else {
      assert parts[1..] == [];
    }
  }

  /** The join ends with the last member's bytes: no trailing demarcator. */
  lemma {:induction false} JoinEndsWithLast(parts: seq<seq<byte>>, d: seq<byte>)
    requires |parts| > 0
    ensures var j := Join(parts, d); var last := parts[|parts| - 1];
      |j| >= |last| && j[|j| - |last|..] == last
  {
    if |parts| > 1 {
      JoinEndsWithLast(parts[1..], d);
      var j := Join(parts, d);
      var rest := Join(parts[1..], d);
      assert j == parts[0] + d + rest;
      assert j[|j| - |rest|..] == rest;
    }
  }

}
