# MergeContent merge core, modelled in Dafny

This project models the merge core of Apache NiFi's `MergeContent` processor.
The processor collects FlowFiles into bins. A FlowFile is a map of string
attributes plus a byte content. When a bin is finished, `processBin` turns it
into one merged bundle and a list of members that could not be merged.

The model covers these parts:

- **Defragment validation.** `getDefragmentValidationError` checks that every
  member has a numeric `fragment.index`. It checks that the members agree on
  `fragment.count`, compared as strings, and that the count equals the bin
  size. A valid bin is then sorted in place by fragment index. The sort is an
  insertion sort on an array, proved to be a stable, sorted permutation.
- **The seven merge formats:**
  - Binary Concatenation: header, members, demarcators, footer, and the
    common MIME type.
  - TAR: entry names, mode, modification time, and big-number mode.
  - The three FlowFile packaging versions.
  - ZIP: the bookkeeping of members the archive refused.
  - Avro: the acceptance rules for schema, codec and metadata.
- **Output naming.** `createFilename` and `getPath`.
- **Configuration hooks.** `getGroupId`, `setUpBinManager`, and the bin limits
  for each merge strategy.
- **Bundle attributes.** The attributes `processBin` puts on the bundle.

Members whose source mutates state are methods and classes:

- the validation loop;
- the in-place sort;
- the concatenation loop;
- the ZIP and Avro mergers and their `unmerged` lists;
- the attribute puts.

Each method is proved against a declarative function. The properties the
processor promises are proved as lemmas about those functions.

The model takes these things as parameters:

- the clock token that names a multi-member bundle (`System.nanoTime`);
- the attribute strategy's merged map;
- the bin's age and eviction reason;
- the filename the session gives a FlowFile it creates;
- the time parser used for TAR modification times;
- the ZIP archive's refusal of an entry;
- Avro container decoding and the check for reserved metadata keys.

Where the source and its documentation differ, the model follows the source:

- Duplicate fragment indices are not rejected.
- Fragment counts are compared as text, so "03" and "3" conflict.
- `tar.permissions` is parsed as a decimal `int`, with no octal or
  three-digit check.
- An Avro member is added to `unmerged` once per failed check: schema, each
  conflicting metadata key, and codec. Each copy goes to failure.
- The Avro merger does not name its bundle.
- Under Keep Only Common Metadata the bundle keeps every non-reserved key of
  the first member, including keys that later members lack. Only a later
  member's differing value for a kept key stops it from merging.
- Under Do Not Merge Uncommon Metadata only the later member's own keys are
  compared. A member that lacks a key of the first member is still merged.
- `getPath` of an empty `path` attribute is "/", as `java.nio` treats "" as
  one empty name.

## Model

| member | source | states |
|---|---|---|
| FlowFiles.ParseInt | nifi-extension-bundles/nifi-standard-bundle/nifi-standard-processors/src/main/java/org/apache/nifi/processors/standard/MergeContent.java:603-607 | `Integer.parseInt`: an optional sign and one or more ASCII digits; a value is returned only inside the 32-bit range, otherwise the NumberFormatException (None) |
| FlowFiles.IsNumber | nifi-extension-bundles/nifi-standard-bundle/nifi-standard-processors/src/main/java/org/apache/nifi/processors/standard/MergeContent.java:621-627 | `isNumber`: holds exactly for a present value made of one or more ASCII digits, with no sign and nothing else (`\d+`) |
| FlowFiles.IsNumberParse | nifi-extension-bundles/nifi-standard-bundle/nifi-standard-processors/src/main/java/org/apache/nifi/processors/standard/MergeContent.java:621-627 | a string `isNumber` accepts parses to its digit value, and fails exactly when that value is above 2147483647 |
| FlowFiles.DecimalStringRoundTrip | nifi-extension-bundles/nifi-standard-bundle/nifi-standard-processors/src/main/java/org/apache/nifi/processors/standard/MergeContent.java:511-512 | `Integer.toString` of any 32-bit value is read back by `Integer.parseInt` as the same value |
| Defragment.GetDefragmentValidationError | nifi-extension-bundles/nifi-standard-bundle/nifi-standard-processors/src/main/java/org/apache/nifi/processors/standard/MergeContent.java:567-619 | the validation loop with its early returns reports exactly the error of the declarative scan `ValidationError` |
| Defragment.ValidationSucceedsIff | nifi-extension-bundles/nifi-standard-bundle/nifi-standard-processors/src/main/java/org/apache/nifi/processors/standard/MergeContent.java:567-619 | no error if and only if the bin is empty or is a complete fragment set: every index all digits, some member declares a count, every declared count is the same digit string, and it parses to the number of members (duplicate indices are not checked) |
| Defragment.ScanErrorLocated | nifi-extension-bundles/nifi-standard-bundle/nifi-standard-processors/src/main/java/org/apache/nifi/processors/standard/MergeContent.java:575-594 | an index, count or mismatch error names a member that really has a non-numeric index, a non-numeric count, or a count string different from one declared earlier |
| Defragment.ScanSuccessFacts | nifi-extension-bundles/nifi-standard-bundle/nifi-standard-processors/src/main/java/org/apache/nifi/processors/standard/MergeContent.java:575-594 | a scan that finishes leaves every index numeric, every declared count equal to the decided one, and no decided count only when no member declares one |
| Defragment.CompareFragments | nifi-extension-bundles/nifi-standard-bundle/nifi-standard-processors/src/main/java/org/apache/nifi/processors/standard/MergeContent.java:1247-1255 | `FragmentComparator.compare`: defined exactly when both indices parse as `int`, negative, zero or positive as the first index is below, equal to or above the second |
| Defragment.SortByIndexSorted | nifi-extension-bundles/nifi-standard-bundle/nifi-standard-processors/src/main/java/org/apache/nifi/processors/standard/MergeContent.java:1247-1255 | the sort specification yields members in ascending index order |
| Defragment.SortByIndexPermutes | nifi-extension-bundles/nifi-standard-bundle/nifi-standard-processors/src/main/java/org/apache/nifi/processors/standard/MergeContent.java:498 | the sort specification is a permutation of the bin |
| Defragment.SortByIndexStable | nifi-extension-bundles/nifi-standard-bundle/nifi-standard-processors/src/main/java/org/apache/nifi/processors/standard/MergeContent.java:498 | members with equal indices keep their order (`List.sort` is stable) |
| Defragment.InsertAt | nifi-extension-bundles/nifi-standard-bundle/nifi-standard-processors/src/main/java/org/apache/nifi/processors/standard/MergeContent.java:498 | one insertion step on the array: the prefix becomes the prefix with the next member inserted, the rest is untouched |
| Defragment.SortFragments | nifi-extension-bundles/nifi-standard-bundle/nifi-standard-processors/src/main/java/org/apache/nifi/processors/standard/MergeContent.java:498 | `contents.sort` in place: the array ends as the stable sort by index of its old contents |
| Defragment.SortThrows | nifi-extension-bundles/nifi-standard-bundle/nifi-standard-processors/src/main/java/org/apache/nifi/processors/standard/MergeContent.java:1249-1254 | the comparator's NumberFormatException: holds exactly when the bin has two or more members and one member's index does not parse as a Java `int` |
| Defragment.ValidBinSortThrows | nifi-extension-bundles/nifi-standard-bundle/nifi-standard-processors/src/main/java/org/apache/nifi/processors/standard/MergeContent.java:498 | for a bin that passed validation, the sort throws exactly when it has two or more members and some index's digits exceed 2147483647 |
| Defragment.SortedPairsCompare | nifi-extension-bundles/nifi-standard-bundle/nifi-standard-processors/src/main/java/org/apache/nifi/processors/standard/MergeContent.java:1249-1254 | when the sort does not throw, the comparator parses both indices of every earlier/later pair of the sorted bin and never returns a positive value |
| Defragment.DuplicateIndicesValidate | nifi-extension-bundles/nifi-standard-bundle/nifi-standard-processors/src/main/java/org/apache/nifi/processors/standard/MergeContent.java:575-579 | indices 0, 1, 1 with count 3 pass validation: duplicates are not rejected |
| Defragment.CountsComparedAsText | nifi-extension-bundles/nifi-standard-bundle/nifi-standard-processors/src/main/java/org/apache/nifi/processors/standard/MergeContent.java:589-592 | counts "03" and "3" are reported as a mismatch at the second member |
| Defragment.IntMaxPlusOneNotAnInt | nifi-extension-bundles/nifi-standard-bundle/nifi-standard-processors/src/main/java/org/apache/nifi/processors/standard/MergeContent.java:1250-1251 | "2147483648" is all digits but `Integer.parseInt` rejects it |
| Defragment.OverflowingIndexThrowsInSort | nifi-extension-bundles/nifi-standard-bundle/nifi-standard-processors/src/main/java/org/apache/nifi/processors/standard/MergeContent.java:1250-1252 | a two-member bin with index 2147483648 passes validation but makes the sort throw |
| Naming.CreateFilename | nifi-extension-bundles/nifi-standard-bundle/nifi-standard-processors/src/main/java/org/apache/nifi/processors/standard/MergeContent.java:904-916 | a single member's filename; otherwise the first member's `segment.original.filename`, or the injected token when absent |
| Naming.GetPathNames | nifi-extension-bundles/nifi-standard-bundle/nifi-standard-processors/src/main/java/org/apache/nifi/processors/standard/MergeContent.java:891-902 | `getPath` keeps the names of the path without a leading "." name, ends in '/' unless empty, is empty exactly when no names remain, and is absolute exactly when the path is and does not start with "." |
| Concatenation.DelimiterContent | nifi-extension-bundles/nifi-standard-bundle/nifi-standard-processors/src/main/java/org/apache/nifi/processors/standard/MergeContent.java:843-848 | a delimiter is present exactly when the strategy is not "Do Not Use Delimiters", the bin is non-empty and the property yields a value for the first member, and then it is that value |
| Concatenation.WriteConcatenation | nifi-extension-bundles/nifi-standard-bundle/nifi-standard-processors/src/main/java/org/apache/nifi/processors/standard/MergeContent.java:793-827 | the loop writes header, the members' bytes with the demarcator between two members, then footer, and computes the members' common MIME type |
| Concatenation.BinaryConcatenationMerge.Merge | nifi-extension-bundles/nifi-standard-bundle/nifi-standard-processors/src/main/java/org/apache/nifi/processors/standard/MergeContent.java:786-841 | the bundle content is the concatenation, its filename is `createFilename`, and the `mimeType` field takes the common MIME type when there is one and keeps its value otherwise |
| Concatenation.BinaryConcatenationMerge.constructor | nifi-extension-bundles/nifi-standard-bundle/nifi-standard-processors/src/main/java/org/apache/nifi/processors/standard/MergeContent.java:780 | the merged type starts as application/octet-stream |
| Concatenation.CommonMimeTypeStep | nifi-extension-bundles/nifi-standard-bundle/nifi-standard-processors/src/main/java/org/apache/nifi/processors/standard/MergeContent.java:813-821 | the running MIME type: the first member's, kept while later members carry the same, and lost for good at the first difference |
| Concatenation.NoDelimitersIsFlatten | nifi-extension-bundles/nifi-standard-bundle/nifi-standard-processors/src/main/java/org/apache/nifi/processors/standard/MergeContent.java:844-847 | without delimiters the output is the members' bytes back to back |
| Concatenation.JoinLength | nifi-extension-bundles/nifi-standard-bundle/nifi-standard-processors/src/main/java/org/apache/nifi/processors/standard/MergeContent.java:801-811 | the output has one demarcator between each two members: total length is the members' lengths plus (n - 1) demarcators |
| Concatenation.JoinEndsWithLast | nifi-extension-bundles/nifi-standard-bundle/nifi-standard-processors/src/main/java/org/apache/nifi/processors/standard/MergeContent.java:807-811 | no demarcator follows the last member |
| Archives.EntryNameParts | nifi-extension-bundles/nifi-standard-bundle/nifi-standard-processors/src/main/java/org/apache/nifi/processors/standard/MergeContent.java:938-940 | an entry name is the filename behind `getPath` when Keep Path is on, and the bare filename when it is off; the prefix holds the path's names less a leading "." and is empty or ends in '/', also for an empty `path` |
| Archives.TarModeOf | nifi-extension-bundles/nifi-standard-bundle/nifi-standard-processors/src/main/java/org/apache/nifi/processors/standard/MergeContent.java:944-952 | the entry mode is the `Integer.parseInt` of `tar.permissions` when it parses, else the default mode is kept |
| Archives.TarModeNotOctal | nifi-extension-bundles/nifi-standard-bundle/nifi-standard-processors/src/main/java/org/apache/nifi/processors/standard/MergeContent.java:944-952 | "999" is taken as decimal 999: no three-digit octal check is made |
| Archives.TarModTime | nifi-extension-bundles/nifi-standard-bundle/nifi-standard-processors/src/main/java/org/apache/nifi/processors/standard/MergeContent.java:954-963 | the modification time is set exactly when the evaluated value is not blank and the injected parser accepts it |
| Archives.IsNotBlank | nifi-extension-bundles/nifi-standard-bundle/nifi-standard-processors/src/main/java/org/apache/nifi/processors/standard/MergeContent.java:956 | `StringUtils.isNotBlank`: holds exactly for a present value with at least one non-whitespace character |
| Archives.GetMaxEntrySize | nifi-extension-bundles/nifi-standard-bundle/nifi-standard-processors/src/main/java/org/apache/nifi/processors/standard/MergeContent.java:981-988 | the largest member size, 0 for an empty bin |
| Archives.TarMerge | nifi-extension-bundles/nifi-standard-bundle/nifi-standard-processors/src/main/java/org/apache/nifi/processors/standard/MergeContent.java:921-979 | filename with ".tar"; big-number mode exactly when some member's size reaches 8589934591; one entry per member, in order, with its name (leading '/' removed), size, mode, time and bytes |
| Archives.WriteTarEntries | nifi-extension-bundles/nifi-standard-bundle/nifi-standard-processors/src/main/java/org/apache/nifi/processors/standard/MergeContent.java:938-969 | the write loop yields one entry per member, in order, each the member's name, size, mode, time and bytes |
| Archives.WriteTarEntry | nifi-extension-bundles/nifi-standard-bundle/nifi-standard-processors/src/main/java/org/apache/nifi/processors/standard/MergeContent.java:939-965 | the entry for one member: the normalised entry name, its size, the parsed mode or the default, and the time when the value is not blank and parses |
| Archives.TarEntryName | nifi-extension-bundles/nifi-standard-bundle/nifi-standard-processors/src/main/java/org/apache/nifi/processors/standard/MergeContent.java:942 | the name a TAR entry records is no longer than the given name and does not start with '/' |
| Archives.TarEntryNameDropsOnlySlashes | nifi-extension-bundles/nifi-standard-bundle/nifi-standard-processors/src/main/java/org/apache/nifi/processors/standard/MergeContent.java:942 | the recorded name is a suffix of the given name, only '/' characters were removed, and a name not starting with '/' is kept as given |
| Archives.StreamMerge | nifi-extension-bundles/nifi-standard-bundle/nifi-standard-processors/src/main/java/org/apache/nifi/processors/standard/MergeContent.java:1011-1042 | every member packaged in order with its attributes, size and bytes; filename with ".pkg" |
| Archives.ZipWrite | nifi-extension-bundles/nifi-standard-bundle/nifi-standard-processors/src/main/java/org/apache/nifi/processors/standard/MergeContent.java:1079-1095 | every member is either written as an entry or rejected by the archive; as many entries as accepted members |
| Archives.ZipWritePartition | nifi-extension-bundles/nifi-standard-bundle/nifi-standard-processors/src/main/java/org/apache/nifi/processors/standard/MergeContent.java:1071-1091 | the accepted and rejected members together are exactly the bin |
| Archives.ZipMerge.constructor | nifi-extension-bundles/nifi-standard-bundle/nifi-standard-processors/src/main/java/org/apache/nifi/processors/standard/MergeContent.java:1057-1064 | the compression level is kept and nothing is unmerged yet |
| Archives.ZipMerge.Merge | nifi-extension-bundles/nifi-standard-bundle/nifi-standard-processors/src/main/java/org/apache/nifi/processors/standard/MergeContent.java:1066-1108 | the entries written, the `unmerged` field as every member minus each accepted one, and the filename with ".zip" |
| Archives.WriteZipEntry | nifi-extension-bundles/nifi-standard-bundle/nifi-standard-processors/src/main/java/org/apache/nifi/processors/standard/MergeContent.java:1082-1085 | the entry for one member: its filename behind `getPath` under Keep Path, its size and its bytes |
| Archives.RemoveFirst | nifi-extension-bundles/nifi-standard-bundle/nifi-standard-processors/src/main/java/org/apache/nifi/processors/standard/MergeContent.java:1091 | `List.remove(Object)`: when x is present one occurrence of it is gone and nothing else changes (multisets), otherwise the list is unchanged |
| Archives.RemoveAccepted | nifi-extension-bundles/nifi-standard-bundle/nifi-standard-processors/src/main/java/org/apache/nifi/processors/standard/MergeContent.java:1071-1091 | for distinct members, removing the accepted ones from the bin leaves exactly the rejected ones, in order |
| Archives.ZipNamesDistinct | nifi-extension-bundles/nifi-standard-bundle/nifi-standard-processors/src/main/java/org/apache/nifi/processors/standard/MergeContent.java:1081-1093 | when the archive refuses only duplicate entry names, the written entry names are distinct |
| Archives.ZipDuplicateFilename | nifi-extension-bundles/nifi-standard-bundle/nifi-standard-processors/src/main/java/org/apache/nifi/processors/standard/MergeContent.java:1081-1093 | two members with the same filename: the first is written and the second stays unmerged |
| Avro.CodecName | nifi-extension-bundles/nifi-standard-bundle/nifi-standard-processors/src/main/java/org/apache/nifi/processors/standard/MergeContent.java:1159-1162 | a container's codec, or "null" when it names none |
| Avro.KeptMetadata | nifi-extension-bundles/nifi-standard-bundle/nifi-standard-processors/src/main/java/org/apache/nifi/processors/standard/MergeContent.java:1150-1158 | the metadata taken from the first member: none under Ignore, otherwise its non-reserved entries |
| Avro.CopyMetadata | nifi-extension-bundles/nifi-standard-bundle/nifi-standard-processors/src/main/java/org/apache/nifi/processors/standard/MergeContent.java:1151-1157 | the copy loop keeps exactly the non-reserved entries with their values |
| Avro.FirstMetadata | nifi-extension-bundles/nifi-standard-bundle/nifi-standard-processors/src/main/java/org/apache/nifi/processors/standard/MergeContent.java:1150-1158 | the loop builds exactly the kept metadata |
| Avro.KeyConflicts | nifi-extension-bundles/nifi-standard-bundle/nifi-standard-processors/src/main/java/org/apache/nifi/processors/standard/MergeContent.java:1177-1189 | a key conflicts under Do Not Merge when its value differs from the kept one (or the key is new), under Keep Only Common only when the kept value exists and differs |
| Avro.AvroMerge.CheckMetadata | nifi-extension-bundles/nifi-standard-bundle/nifi-standard-processors/src/main/java/org/apache/nifi/processors/standard/MergeContent.java:1174-1191 | the member is appended to `unmerged` once per conflicting key, and the member is refused exactly when there is one |
| Avro.AvroMerge.CheckMember | nifi-extension-bundles/nifi-standard-bundle/nifi-standard-processors/src/main/java/org/apache/nifi/processors/standard/MergeContent.java:1165-1204 | a later member is appended once per failed check (schema, each conflicting key, codec), and accepted exactly when none fails |
| Avro.AvroMerge.Merge | nifi-extension-bundles/nifi-standard-bundle/nifi-standard-processors/src/main/java/org/apache/nifi/processors/standard/MergeContent.java:1126-1233 | the merged output is the first member's schema, metadata and codec with the records of every accepted member in order, and `unmerged` grows by every rejection |
| Avro.AvroMerge.constructor | nifi-extension-bundles/nifi-standard-bundle/nifi-standard-processors/src/main/java/org/apache/nifi/processors/standard/MergeContent.java:1123 | a new merge starts with an empty `unmerged` list |
| Avro.AvroAcceptance | nifi-extension-bundles/nifi-standard-bundle/nifi-standard-processors/src/main/java/org/apache/nifi/processors/standard/MergeContent.java:1165-1210 | per strategy, when a later member is accepted: same schema and codec, plus equal values for all its non-reserved keys under Do Not Merge, or for the keys the first member kept under Keep Only Common, and nothing more under Use First and Ignore |
| Avro.AllCommonKeepsUnsharedKey | nifi-extension-bundles/nifi-standard-bundle/nifi-standard-processors/src/main/java/org/apache/nifi/processors/standard/MergeContent.java:1146-1192 | under Keep Only Common Metadata a second member without metadata, with the first's schema and codec, is merged, and the first member's non-reserved key stays in the bundle |
| Avro.DoNotMergeIgnoresMissingKey | nifi-extension-bundles/nifi-standard-bundle/nifi-standard-processors/src/main/java/org/apache/nifi/processors/standard/MergeContent.java:1174-1192 | under Do Not Merge Uncommon Metadata a second member lacking the first member's key, with the same schema and codec, is merged and its records appended |
| Avro.AvroUnmergedMembers | nifi-extension-bundles/nifi-standard-bundle/nifi-standard-processors/src/main/java/org/apache/nifi/processors/standard/MergeContent.java:1165-1204 | for distinct members, the first is never unmerged and each later one occurs in `unmerged` once per failed check |
| Avro.AvroAllMerged | nifi-extension-bundles/nifi-standard-bundle/nifi-standard-processors/src/main/java/org/apache/nifi/processors/standard/MergeContent.java:1165-1210 | under Use First or Ignore with one schema and codec, nothing is unmerged and every member's records are merged in order |
| Config.GroupId | nifi-extension-bundles/nifi-standard-bundle/nifi-standard-processors/src/main/java/org/apache/nifi/processors/standard/MergeContent.java:433-444 | the group is the fragment identifier under Defragment; under Bin Packing the correlation attribute's value, or none when the property is unset |
| Config.Limits | nifi-extension-bundles/nifi-standard-bundle/nifi-standard-processors/src/main/java/org/apache/nifi/processors/standard/MergeContent.java:535-565 | the configured limits under Bin Packing; under Defragment at least and at most 2147483647 entries and 0 to 9223372036854775807 bytes |
| Config.DefragmentLimitsHoldValidBins | nifi-extension-bundles/nifi-standard-bundle/nifi-standard-processors/src/main/java/org/apache/nifi/processors/standard/MergeContent.java:535-565 | a bin that passes Defragment validation fits the Defragment entry limit, and its size is the `fragment.count` one of its members declares |
| Config.BinManager.SetUp | nifi-extension-bundles/nifi-standard-bundle/nifi-standard-processors/src/main/java/org/apache/nifi/processors/standard/MergeContent.java:447-461 | Bin Packing clears the count attribute and sets the termination check only when configured; Defragment counts by `fragment.count` |
| MergeContent.MergeConcat | nifi-extension-bundles/nifi-standard-bundle/nifi-standard-processors/src/main/java/org/apache/nifi/processors/standard/MergeContent.java:476 | the concatenating merger's content, filename, type, and no unmerged members |
| MergeContent.MergeTar | nifi-extension-bundles/nifi-standard-bundle/nifi-standard-processors/src/main/java/org/apache/nifi/processors/standard/MergeContent.java:468 | the TAR merger's archive, filename and type, and no unmerged members |
| MergeContent.MergeZip | nifi-extension-bundles/nifi-standard-bundle/nifi-standard-processors/src/main/java/org/apache/nifi/processors/standard/MergeContent.java:469 | the ZIP merger's entries, filename and type; unmerged are the members it could not add |
| MergeContent.MergeAvro | nifi-extension-bundles/nifi-standard-bundle/nifi-standard-processors/src/main/java/org/apache/nifi/processors/standard/MergeContent.java:477 | the Avro merger's output and type; the filename is the one the session gives the bundle |
| MergeContent.MergePackaged | nifi-extension-bundles/nifi-standard-bundle/nifi-standard-processors/src/main/java/org/apache/nifi/processors/standard/MergeContent.java:470-475 | the packaging merger's packages, filename and version's media type, and no unmerged members |
| MergeContent.MergeBin | nifi-extension-bundles/nifi-standard-bundle/nifi-standard-processors/src/main/java/org/apache/nifi/processors/standard/MergeContent.java:466-501 | the merger of the configured format produces what that format promises |
| MergeContent.AssembleAttributes | nifi-extension-bundles/nifi-standard-bundle/nifi-standard-processors/src/main/java/org/apache/nifi/processors/standard/MergeContent.java:506-514 | the fixed keys `mime.type`, `filename`, `merge.count`, `merge.bin.age` and `merge.reason` override the attribute strategy's map; all its other keys are kept |
| MergeContent.MergeCountReadsBack | nifi-extension-bundles/nifi-standard-bundle/nifi-standard-processors/src/main/java/org/apache/nifi/processors/standard/MergeContent.java:511 | `merge.count` reads back as the number of bin members, rejected ones included |
| MergeContent.ProcessBin | nifi-extension-bundles/nifi-standard-bundle/nifi-standard-processors/src/main/java/org/apache/nifi/processors/standard/MergeContent.java:464-533 | under Defragment an invalid bin goes to failure whole, unsorted and unmerged, and a sort that throws merges nothing; otherwise the bin is ordered, merged by its format, the bundle gets its attributes and the rejected members go to failure |
| MergeContent.DefragmentMergesInIndexOrder | nifi-extension-bundles/nifi-standard-bundle/nifi-standard-processors/src/main/java/org/apache/nifi/processors/standard/MergeContent.java:485-499 | a valid Defragment bin whose sort does not throw is merged as a permutation in ascending `int` index order |
| MergeContent.ZipAccountsForEveryMember | nifi-extension-bundles/nifi-standard-bundle/nifi-standard-processors/src/main/java/org/apache/nifi/processors/standard/MergeContent.java:525-528 | under ZIP every member is written or routed to failure, never both |
| MergeContent.ZipFailuresAreRejections | nifi-extension-bundles/nifi-standard-bundle/nifi-standard-processors/src/main/java/org/apache/nifi/processors/standard/MergeContent.java:525-528 | under ZIP, for distinct members, failure receives exactly the rejected members in order |

## Left out

- Bin assignment, eviction, bin age, the eviction reason, backpressure on open bins and locking: these live in `BinManager`, `Bin` and `BinFiles`, which are not part of this model. `Config.BinManager` holds only the two settings `setUpBinManager` writes.
- The attribute strategy (`AttributeStrategyUtil`): its merged map is a parameter.
- The byte encodings:
  - TAR headers (POSIX ustar and pax);
  - ZIP with its compression level;
  - the FlowFile packager formats V1 to V3;
  - Avro object container files.
- How the model stands in for those encodings:
  - TAR and ZIP archives are lists of entries.
  - Packaged output is a list of packages.
  - An Avro container is a schema, a metadata map, a codec and its records.
- Avro decoding (`DataFileStream`) and `DataFileWriter.isReservedMeta` are parameters.
- ZIP failures other than the archive refusing an entry are not modelled. That refusal is a predicate over the names already written and the new name.
- `Instant.parse` is a parameter.
- The TAR long-file mode and the POSIX big-number encoding are left out. The model records only whether big-number mode is switched on.
- I/O and framework calls are left out:
  - session reads, writes, exports, transfers, clones and commits;
  - provenance joins and logging;
  - the `merge.uuid` result attribute;
  - the attributes the session gives a FlowFile it creates.
- The rollback paths, which remove the bundle and rethrow when a write fails, are left out.
- Reading delimiter files and evaluating Expression Language are left out. Each delimiter is a given function from a FlowFile to the bytes its property yields for it, applied to the first member.
- Property validation (`additionalCustomValidation`) is left out.
- MergeContent.ProcessBin: when the fragment sort throws, the outcome is `SortFailed`, and the order of the array after the exception is not stated. The exception's route through the framework is not modelled.
- Paths containing a NUL character (an `InvalidPathException` in `getPath`) are not modelled.
- `Integer.parseInt` also accepts non-ASCII decimal digits (`Character.digit`); the model accepts only '0' to '9'.
- `IsWhitespace` covers only the ASCII part of `Character.isWhitespace` (characters 9 to 13 and 28 to 32). The Unicode space, line and paragraph separators are not modelled.
- MergeContent.ProcessBin, Naming.CreateFilename: bins are non-empty and every member carries `filename` and `path`, as the framework guarantees. Other inputs would make the source throw or produce odd names, and none of this is modelled: the `NoSuchElementException` from `getFirst` on an empty bin, the `NullPointerException` from `Paths.get` of a missing `path` under Keep Path, and entry or bundle names ending in "null" for a missing `filename`.
- Archives.TarEntryName: only the leading '/' removal of Commons Compress name normalisation is modelled. Its Windows drive-letter and separator rewriting does not apply to the paths built here.
- Member identity is an `id` field, so two members with equal attributes and content are still different members. `List.remove` and `HashSet` use that identity.
- `PutFTP`, the FTP client wrapper, is not part of this model.
