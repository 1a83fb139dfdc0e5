/**
 * The hooks through which the processor configures binning: which bin a
 * FlowFile joins (`getGroupId`), how the bin manager is set up
 * (`setUpBinManager`) and the size limits of a bin (`getMinEntries`,
 * `getMaxEntries`, `getMinBytes`, `getMaxBytes`).
 */
module Config {
  import opened Wrappers
  import opened FlowFiles
  import Frag = Defragment

  /** The "Merge Strategy" property. */
  datatype MergeStrategy = BinPack | Defragment

  /**
   * `getGroupId`: under Defragment the member's `fragment.identifier`; under
   * Bin Packing the value of the attribute the "Correlation Attribute Name"
   * property names (evaluated against the member as `correlationName`), or
   * None (all such members share one group) when the property is unset.
   */
  function GroupId(strategy: MergeStrategy, correlationName: FlowFile -> Option<string>, ff: FlowFile): (r: Option<string>)
    ensures strategy == Defragment ==> r == ff.Attr(FRAGMENT_ID)
    ensures strategy == BinPack && correlationName(ff).None? ==> r.None?
    ensures strategy == BinPack && correlationName(ff).Some? ==> r == ff.Attr(correlationName(ff).value)
  {
    match strategy
    case BinPack => (
      match correlationName(ff)
      case None => None
      case Some(name) => ff.Attr(name))
    case Defragment => ff.Attr(FRAGMENT_ID)
  }

  /** The bin limits: entries and bytes, each a minimum and a maximum. */
  datatype BinLimits = BinLimits(minEntries: int, maxEntries: int, minBytes: int, maxBytes: int)

  /**
   * `getMinEntries`, `getMaxEntries`, `getMinBytes`, `getMaxBytes`: the
   * configured values under Bin Packing; under Defragment no limit is in the
   * way, since a bin is complete when its fragment count is reached.
   */
  function Limits(strategy: MergeStrategy, configured: BinLimits): (r: BinLimits)
    ensures strategy == BinPack ==> r == configured
    ensures strategy == Defragment ==> r.minEntries == INT_MAX && r.maxEntries == INT_MAX
    ensures strategy == Defragment ==> r.minBytes == 0 && r.maxBytes == LONG_MAX
  {
    match strategy
    case BinPack => configured
    case Defragment => BinLimits(INT_MAX, INT_MAX, 0, LONG_MAX)
  }

  /**
   * Under Defragment a bin that passes validation never exceeds the entry
   * limit: its size is the `fragment.count` its members declare, which is a
   * Java `int`.
   */
  lemma DefragmentLimitsHoldValidBins(configured: BinLimits, bin: seq<FlowFile>)
    requires Frag.ValidationError(bin) == None
    ensures |bin| <= Limits(Defragment, configured).maxEntries
    ensures bin != [] ==> exists j | 0 <= j < |bin| ::
      Frag.DeclaresCount(bin[j]) && ParseInt(bin[j].attributes[FRAGMENT_COUNT]) == Some(|bin|)
  {
    Frag.ValidationSucceedsIff(bin);
    if bin != [] {
      var j :| 0 <= j < |bin| && Frag.DeclaresCount(bin[j])
        && var count := bin[j].attributes[FRAGMENT_COUNT];
           IsNumber(Some(count)) && Frag.CountsAgree(bin, count) && ParseInt(count) == Some(|bin|);
    }
  }

  /** Where a FlowFile that ends a bin goes ("FlowFile Insertion Strategy"). */
  datatype InsertionLocation = InsertionLocation(name: string)

  /** A bin-termination setting: the check evaluated per FlowFile, and the insertion location. */
  datatype BinTermination = BinTermination(check: FlowFile -> bool, location: InsertionLocation)

  /**
   * The part of the bin manager that `setUpBinManager` configures: the
   * attribute holding the expected number of members, and the termination
   * check.
   */
  class BinManager {
    var fileCountAttribute: Option<string>
    var binTermination: Option<BinTermination>

    constructor ()
      ensures fileCountAttribute.None? && binTermination.None?
    {
      fileCountAttribute := None;
      binTermination := None;
    }

    /**
     * `setUpBinManager`: under Bin Packing no count attribute, and the
     * termination check when the "Bin Termination Check" property is set;
     * under Defragment the count comes from `fragment.count`.
     */
    method SetUp(strategy: MergeStrategy, terminationCheck: Option<FlowFile -> bool>, location: InsertionLocation)
      modifies this
      ensures strategy == BinPack ==> fileCountAttribute.None?
      ensures strategy == BinPack && terminationCheck.Some? ==>
        binTermination == Some(BinTermination(terminationCheck.value, location))
      ensures strategy == BinPack && terminationCheck.None? ==> binTermination == old(binTermination)
      ensures strategy == Defragment ==> fileCountAttribute == Some(FRAGMENT_COUNT) && binTermination == old(binTermination)
    {
      match strategy
      case BinPack =>
        fileCountAttribute := None;
        if terminationCheck.Some? {
          binTermination := Some(BinTermination(terminationCheck.value, location));
        }
      case Defragment =>
        fileCountAttribute := Some(FRAGMENT_COUNT);
    }
  }
}
