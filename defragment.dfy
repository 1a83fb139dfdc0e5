/**
 * The Defragment merge strategy's check of a finished bin
 * (`getDefragmentValidationError`) and the reordering of a valid bin by
 * fragment index (`FragmentComparator` and `contents.sort`).
 */
module Defragment {
  import opened Wrappers
  import opened FlowFiles

  /** Why a bin cannot be defragmented; positions are 0-based bin positions. */
  datatype DefragError =
    | IndexNotNumber(position: nat)
    | CountNotNumber(position: nat)
    | CountMismatch(position: nat, decided: string, found: string)
    | CountMissing(fragmentIdentifier: Option<string>)
    | CountNotInteger(fragmentIdentifier: Option<string>, count: string)
    | TooFewFragments(fragmentIdentifier: Option<string>, expected: string, members: nat)
    | TooManyFragments(fragmentIdentifier: Option<string>, expected: string, members: nat)

  predicate DeclaresCount(ff: FlowFile) {
    FRAGMENT_COUNT in ff.attributes
  }

  /**
   * The validation loop over bin[k..], given the fragment count decided by the
   * members before k: it stops at the first member whose index is not a
   * number, whose count is not a number, or whose count differs (as a string)
   * from the decided one; otherwise it yields the decided count.
   */
  function ScanFragments(bin: seq<FlowFile>, k: nat, decided: Option<string>): Result<Option<string>, DefragError>
    requires k <= |bin|
    decreases |bin| - k
  {
    if k == |bin| then Success(decided)
    else if !IsNumber(bin[k].Attr(FRAGMENT_INDEX)) then Failure(IndexNotNumber(k))
    else match bin[k].Attr(FRAGMENT_COUNT)
      case None => ScanFragments(bin, k + 1, decided)
      case Some(count) =>
        if !IsNumber(Some(count)) then Failure(CountNotNumber(k))
        else if decided.None? then ScanFragments(bin, k + 1, Some(count))
        else if decided.value != count then Failure(CountMismatch(k, decided.value, count))
        else ScanFragments(bin, k + 1, decided)
  }

  /**
   * The error `getDefragmentValidationError` reports for a bin, or None. The
   * fragment identifier in the messages after the loop is that of the last
   * member, the last one the loop looked at.
   */
  function ValidationError(bin: seq<FlowFile>): Option<DefragError> {
    if bin == [] then None
    else
      var id := bin[|bin| - 1].Attr(FRAGMENT_ID);
      match ScanFragments(bin, 0, None)
      case Failure(e) => Some(e)
      case Success(None) => Some(CountMissing(id))
      case Success(Some(count)) =>
        match ParseInt(count)
        case None => Some(CountNotInteger(id, count))
        case Some(n) =>
          if |bin| < n then Some(TooFewFragments(id, count, |bin|))
          else if |bin| > n then Some(TooManyFragments(id, count, |bin|))
          else None
  }

  /** `getDefragmentValidationError`: the loop with its early returns. */
  method GetDefragmentValidationError(binContents: seq<FlowFile>) returns (error: Option<DefragError>)
    ensures error == ValidationError(binContents)
  {
    if |binContents| == 0 {
      return None;
    }
    var decidedFragmentCount: Option<string> := None;
    var fragmentIdentifier: Option<string> := None;
    var k := 0;
    while k < |binContents|
      invariant 0 <= k <= |binContents|
      invariant ScanFragments(binContents, 0, None) == ScanFragments(binContents, k, decidedFragmentCount)
      invariant k > 0 ==> fragmentIdentifier == binContents[k - 1].Attr(FRAGMENT_ID)
    {
      var flowFile := binContents[k];
      var fragmentIndex := flowFile.Attr(FRAGMENT_INDEX);
      if !IsNumber(fragmentIndex) {
        return Some(IndexNotNumber(k));
      }
      fragmentIdentifier := flowFile.Attr(FRAGMENT_ID);
      var fragmentCount := flowFile.Attr(FRAGMENT_COUNT);
      if fragmentCount.Some? {
        if !IsNumber(fragmentCount) {
          return Some(CountNotNumber(k));
        } else if decidedFragmentCount.None? {
          decidedFragmentCount := fragmentCount;
        } else if decidedFragmentCount.value != fragmentCount.value {
          return Some(CountMismatch(k, decidedFragmentCount.value, fragmentCount.value));
        }
      }
      k := k + 1;
    }
    if decidedFragmentCount.None? {
      return Some(CountMissing(fragmentIdentifier));
    }
    var count := decidedFragmentCount.value;
    var numericFragmentCount := ParseInt(count);
    if numericFragmentCount.None? {
      return Some(CountNotInteger(fragmentIdentifier, count));
    }
    if |binContents| < numericFragmentCount.value {
      return Some(TooFewFragments(fragmentIdentifier, count, |binContents|));
    }
    if |binContents| > numericFragmentCount.value {
      return Some(TooManyFragments(fragmentIdentifier, count, |binContents|));
    }
    return None;
  }

  // ----- What a valid bin is, stated without the loop -----

  ghost predicate AllIndicesNumeric(bin: seq<FlowFile>) {
    forall i | 0 <= i < |bin| :: IsNumber(bin[i].Attr(FRAGMENT_INDEX))
  }

  ghost predicate CountsAgree(bin: seq<FlowFile>, count: string) {
    forall i | 0 <= i < |bin| && DeclaresCount(bin[i]) :: bin[i].attributes[FRAGMENT_COUNT] == count
  }

  /**
   * A complete fragment set: every index is a digit string, some member
   * declares a digit-string count, every declared count is that same string,
   * and it parses to the number of members.
   */
  ghost predicate CompleteFragmentSet(bin: seq<FlowFile>) {
    && AllIndicesNumeric(bin)
    && exists j | 0 <= j < |bin| && DeclaresCount(bin[j]) ::
         var count := bin[j].attributes[FRAGMENT_COUNT];
         IsNumber(Some(count)) && CountsAgree(bin, count) && ParseInt(count) == Some(|bin|)
  }

  /** What a successful scan of bin[k..] tells about those members. */
  lemma {:induction false} ScanSuccessFacts(bin: seq<FlowFile>, k: nat, decided: Option<string>, r: Option<string>)
    requires k <= |bin|
    requires ScanFragments(bin, k, decided) == Success(r)
    ensures forall i | k <= i < |bin| :: IsNumber(bin[i].Attr(FRAGMENT_INDEX))
    ensures decided.Some? ==> r == decided
    ensures r.None? ==> forall i | k <= i < |bin| :: !DeclaresCount(bin[i])
    ensures r.Some? && decided.None? ==>
      IsNumber(r) && exists j | k <= j < |bin| :: DeclaresCount(bin[j]) && bin[j].attributes[FRAGMENT_COUNT] == r.value
    ensures r.Some? ==> forall i | k <= i < |bin| && DeclaresCount(bin[i]) :: bin[i].attributes[FRAGMENT_COUNT] == r.value
    decreases |bin| - k
  {
    if k < |bin| {
      var next := if DeclaresCount(bin[k]) && decided.None? then Some(bin[k].attributes[FRAGMENT_COUNT]) else decided;
      assert ScanFragments(bin, k, decided) == ScanFragments(bin, k + 1, next);
      ScanSuccessFacts(bin, k + 1, next, r);
    }
  }

  /** A scan over members that all agree on `count` succeeds with that count. */
  lemma {:induction false} ScanAgreeing(bin: seq<FlowFile>, k: nat, decided: Option<string>, count: string)
    requires k <= |bin|
    requires IsNumber(Some(count))
    requires forall i | k <= i < |bin| :: IsNumber(bin[i].Attr(FRAGMENT_INDEX))
    requires forall i | k <= i < |bin| && DeclaresCount(bin[i]) :: bin[i].attributes[FRAGMENT_COUNT] == count
    requires decided == Some(count) || (decided.None? && exists j | k <= j < |bin| :: DeclaresCount(bin[j]))
    ensures ScanFragments(bin, k, decided) == Success(Some(count))
    decreases |bin| - k
  {
    if k < |bin| {
      var next := if DeclaresCount(bin[k]) then Some(count) else decided;
      if decided.None? && !DeclaresCount(bin[k]) {
        var j :| k <= j < |bin| && DeclaresCount(bin[j]);
        assert j != k;
      }
      ScanAgreeing(bin, k + 1, next, count);
    }
  }

  /**
   * The validator accepts a bin exactly when it is empty or a complete
   * fragment set. Duplicate indices are not looked at.
   */
  lemma ValidationSucceedsIff(bin: seq<FlowFile>)
    ensures ValidationError(bin) == None <==> bin == [] || CompleteFragmentSet(bin)
  {
    if bin != [] {
      if ValidationError(bin) == None {
        var r := ScanFragments(bin, 0, None);
        assert r.Success? && r.value.Some?;
        ScanSuccessFacts(bin, 0, None, r.value);
        var j :| 0 <= j < |bin| && DeclaresCount(bin[j]) && bin[j].attributes[FRAGMENT_COUNT] == r.value.value;
        assert CountsAgree(bin, r.value.value);
      }
      if CompleteFragmentSet(bin) {
        var j :| 0 <= j < |bin| && DeclaresCount(bin[j]) &&
          var count := bin[j].attributes[FRAGMENT_COUNT];
          IsNumber(Some(count)) && CountsAgree(bin, count) && ParseInt(count) == Some(|bin|);
        ScanAgreeing(bin, 0, None, bin[j].attributes[FRAGMENT_COUNT]);
      }
    }
  }

  /**
   * Each error names a real fault: the member at the reported position has a
   * bad index, a bad count or a count that differs from the one decided by an
   * earlier member.
   */
  lemma {:induction false} ScanErrorLocated(bin: seq<FlowFile>, k: nat, decided: Option<string>)
    requires k <= |bin|
    requires ScanFragments(bin, k, decided).Failure?
    ensures match ScanFragments(bin, k, decided).error
      case IndexNotNumber(p) => k <= p < |bin| && !IsNumber(bin[p].Attr(FRAGMENT_INDEX))
      case CountNotNumber(p) =>
        k <= p < |bin| && IsNumber(bin[p].Attr(FRAGMENT_INDEX)) && DeclaresCount(bin[p]) && !IsNumber(bin[p].Attr(FRAGMENT_COUNT))
      case CountMismatch(p, d, f) =>
        && k <= p < |bin| && IsNumber(bin[p].Attr(FRAGMENT_INDEX))
        && bin[p].Attr(FRAGMENT_COUNT) == Some(f) && d != f
        && (decided == Some(d) || exists j | k <= j < p :: bin[j].Attr(FRAGMENT_COUNT) == Some(d))
      case _ => false
    decreases |bin| - k
  {
    if IsNumber(bin[k].Attr(FRAGMENT_INDEX)) && (!DeclaresCount(bin[k]) || IsNumber(bin[k].Attr(FRAGMENT_COUNT))) {
      var next := if DeclaresCount(bin[k]) && decided.None? then Some(bin[k].attributes[FRAGMENT_COUNT]) else decided;
      if !(DeclaresCount(bin[k]) && decided.Some? && decided.value != bin[k].attributes[FRAGMENT_COUNT]) {
        ScanErrorLocated(bin, k + 1, next);
      }
    }
  }

  // ----- Ordering a valid bin -----

  /**
   * `FragmentComparator.compare`: both indices are parsed with
   * Integer.parseInt (None: the NumberFormatException) and compared.
   */
  function CompareFragments(a: FlowFile, b: FlowFile): (r: Option<int>)
    ensures r.Some? <==> ParseIntAttr(a).Some? && ParseIntAttr(b).Some?
    ensures r.Some? ==>
      && (r.value < 0 <==> ParseIntAttr(a).value < ParseIntAttr(b).value)
      && (r.value == 0 <==> ParseIntAttr(a).value == ParseIntAttr(b).value)
      && -1 <= r.value <= 1
  {
    match (ParseIntAttr(a), ParseIntAttr(b))
    case (Some(x), Some(y)) => Some(if x < y then -1 else if x == y then 0 else 1)
    case _ => None
  }

  /** Integer.parseInt of the fragment index; None when absent or not a 32-bit integer. */
  function ParseIntAttr(ff: FlowFile): Option<int> {
    match ff.Attr(FRAGMENT_INDEX)
    case Some(s) => ParseInt(s)
    case None => None
  }

  /** The fragment index as the comparator sees it (0 where it would throw). */
  function SortKey(ff: FlowFile): int {
    ParseIntAttr(ff).GetOr(0)
  }

  /**
   * `contents.sort(new FragmentComparator())` throws when the bin has at least
   * two members and one of them has an index parseInt rejects: any correct
   * comparison sort compares every element at least once when there are two
   * or more. A validated bin only has digit-string indices, so this is an
   * index above 2147483647.
   */
  predicate SortThrows(bin: seq<FlowFile>) {
    |bin| >= 2 && exists i | 0 <= i < |bin| :: ParseIntAttr(bin[i]).None?
  }

  ghost predicate SortedByIndex<T>(key: T -> int, s: seq<T>) {
    forall i, j | 0 <= i < j < |s| :: key(s[i]) <= key(s[j])
  }

  /** Inserts x after every element whose index is not above x's. */
  function Insert<T>(key: T -> int, s: seq<T>, x: T): seq<T> {
    if s == [] then [x]
    else if key(s[|s| - 1]) <= key(x) then s + [x]
    else Insert<T>(key, s[..|s| - 1], x) + [s[|s| - 1]]
  }

  /** The stable sort by ascending fragment index (insertion order within a key). */
  function SortByIndex<T>(key: T -> int, s: seq<T>): seq<T> {
    if s == [] then [] else Insert<T>(key, SortByIndex<T>(key, s[..|s| - 1]), s[|s| - 1])
  }

  /** The members whose key is `v`, in their order in s. */
  function WithKey<T>(key: T -> int, s: seq<T>, v: int): seq<T> {
    if s == [] then [] else WithKey<T>(key, s[..|s| - 1], v) + (if key(s[|s| - 1]) == v then [s[|s| - 1]] else [])
  }

  lemma {:induction false} WithKeyAppend<T>(key: T -> int, s: seq<T>, t: seq<T>, v: int)
    ensures WithKey<T>(key, s + t, v) == WithKey<T>(key, s, v) + WithKey<T>(key, t, v)
    decreases |t|
  {
    if t == [] {
      assert s + t == s;
    } else {
      assert (s + t)[..|s + t| - 1] == s + t[..|t| - 1];
      WithKeyAppend<T>(key, s, t[..|t| - 1], v);
    }
  }

  lemma {:induction false} InsertMultiset<T>(key: T -> int, s: seq<T>, x: T)
    ensures multiset(Insert<T>(key, s, x)) == multiset(s) + multiset{x}
    decreases |s|
  {
    if s != [] && key(s[|s| - 1]) > key(x) {
      assert s == s[..|s| - 1] + [s[|s| - 1]];
      InsertMultiset<T>(key, s[..|s| - 1], x);
    }
  }

  lemma {:induction false} InsertSorted<T>(key: T -> int, s: seq<T>, x: T)
    requires SortedByIndex<T>(key, s)
    ensures SortedByIndex<T>(key, Insert<T>(key, s, x))
    decreases |s|
  {
    if s != [] && key(s[|s| - 1]) > key(x) {
      var init, last := s[..|s| - 1], s[|s| - 1];
      InsertSorted<T>(key, init, x);
      InsertMultiset<T>(key, init, x);
      var r := Insert<T>(key, init, x);
      forall i | 0 <= i < |r| ensures key(r[i]) <= key(last) {
        assert r[i] in multiset(r);
        if r[i] != x {
          assert r[i] in multiset(init);
          var k :| 0 <= k < |init| && init[k] == r[i];
          assert s[k] == init[k];
        }
      }
    }
  }

  lemma WithKeySingle<T>(key: T -> int, y: T, v: int)
    ensures WithKey<T>(key, [y], v) == if key(y) == v then [y] else []
  {
    assert [y][..0] == [];
  }

  lemma {:induction false} InsertWithKey<T>(key: T -> int, s: seq<T>, x: T, v: int)
    ensures WithKey<T>(key, Insert<T>(key, s, x), v) == WithKey<T>(key, s, v) + WithKey<T>(key, [x], v)
    decreases |s|
  {
    if s == [] {
      assert Insert<T>(key, s, x) == [x];
    } else {
      var init, last := s[..|s| - 1], s[|s| - 1];
      if key(last) <= key(x) {
        WithKeyAppend<T>(key, s, [x], v);
      } else {
        var r := Insert<T>(key, init, x);
        assert Insert<T>(key, s, x) == r + [last];
        calc {
          WithKey<T>(key, Insert<T>(key, s, x), v);
          WithKey<T>(key, r + [last], v);
          { WithKeyAppend<T>(key, r, [last], v); }
          WithKey<T>(key, r, v) + WithKey<T>(key, [last], v);
          { InsertWithKey<T>(key, init, x, v); }
          WithKey<T>(key, init, v) + WithKey<T>(key, [x], v) + WithKey<T>(key, [last], v);
          { WithKeySingle<T>(key, x, v); WithKeySingle<T>(key, last, v); }
          WithKey<T>(key, init, v) + WithKey<T>(key, [last], v) + WithKey<T>(key, [x], v);
          { assert s == init + [last]; WithKeyAppend<T>(key, init, [last], v); }
          WithKey<T>(key, s, v) + WithKey<T>(key, [x], v);
        }
      }
    }
  }

  /** The reordering is sorted by ascending fragment index. */
  lemma {:induction false} SortByIndexSorted<T>(key: T -> int, s: seq<T>)
    ensures SortedByIndex<T>(key, SortByIndex<T>(key, s))
  {
    if s != [] {
      SortByIndexSorted<T>(key, s[..|s| - 1]);
      InsertSorted<T>(key, SortByIndex<T>(key, s[..|s| - 1]), s[|s| - 1]);
    }
  }

  /** The reordering is a permutation of the bin: nothing lost, nothing duplicated. */
  lemma {:induction false} SortByIndexPermutes<T>(key: T -> int, s: seq<T>)
    ensures multiset(SortByIndex<T>(key, s)) == multiset(s)
  {
    if s != [] {
      var init, last := s[..|s| - 1], s[|s| - 1];
      SortByIndexPermutes<T>(key, init);
      InsertMultiset<T>(key, SortByIndex<T>(key, init), last);
      assert SortByIndex<T>(key, s) == Insert<T>(key, SortByIndex<T>(key, init), last);
      assert s == init + [last];
      assert multiset(s) == multiset(init) + multiset{last};
    }
  }

  /** The reordering is stable: members sharing an index keep their arrival order. */
  lemma {:induction false} SortByIndexStable<T>(key: T -> int, s: seq<T>, v: int)
    ensures WithKey<T>(key, SortByIndex<T>(key, s), v) == WithKey<T>(key, s, v)
  {
    if s != [] {
      var init, last := s[..|s| - 1], s[|s| - 1];
      var sortedInit := SortByIndex<T>(key, init);
      assert SortByIndex<T>(key, s) == Insert<T>(key, sortedInit, last);
      SortByIndexStable<T>(key, init, v);
      SortByIndexSorted<T>(key, init);
      InsertWithKey<T>(key, sortedInit, last, v);
      assert WithKey<T>(key, s, v) == WithKey<T>(key, init, v) + WithKey<T>(key, [last], v);
    }
  }

  /**
   * When the sort does not throw, `FragmentComparator` orders every pair of
   * the sorted bin: it parses both indices and never finds the earlier one
   * larger.
   */
  lemma SortedPairsCompare(bin: seq<FlowFile>, i: nat, j: nat)
    requires !SortThrows(bin) && i < j < |bin|
    ensures var s := SortByIndex<FlowFile>(SortKey, bin);
      |s| == |bin| && CompareFragments(s[i], s[j]).Some? && CompareFragments(s[i], s[j]).value <= 0
  {
    var s := SortByIndex<FlowFile>(SortKey, bin);
    SortByIndexSorted<FlowFile>(SortKey, bin);
    SortByIndexPermutes<FlowFile>(SortKey, bin);
    assert |s| == |multiset(s)| == |multiset(bin)| == |bin|;
    assert s[i] in multiset(bin) && s[j] in multiset(bin);
    assert ParseIntAttr(s[i]).Some? && ParseIntAttr(s[j]).Some?;
    assert SortKey(s[i]) <= SortKey(s[j]);
  }

  /**
   * A bin that passes validation has only digit-string indices, so its sort
   * throws exactly when it has two or more members and one index is above
   * 2147483647.
   */
  lemma ValidBinSortThrows(bin: seq<FlowFile>)
    requires ValidationError(bin) == None
    ensures SortThrows(bin) <==> |bin| >= 2 && exists i | 0 <= i < |bin| && IsNumber(bin[i].Attr(FRAGMENT_INDEX)) ::
      DigitsValue(bin[i].Attr(FRAGMENT_INDEX).value) > INT_MAX
  {
    ValidationSucceedsIff(bin);
    forall i | 0 <= i < |bin|
      ensures IsNumber(bin[i].Attr(FRAGMENT_INDEX))
      ensures ParseIntAttr(bin[i]).None? <==> DigitsValue(bin[i].Attr(FRAGMENT_INDEX).value) > INT_MAX
    {
      IsNumberParse(bin[i].Attr(FRAGMENT_INDEX).value);
    }
  }

  /** Inserting x behind members whose indices are all above its own puts it in front of them. */
  lemma {:induction false} InsertBeforeLarger<T>(key: T -> int, sorted: seq<T>, j: nat, x: T)
    requires j <= |sorted|
    requires forall k | j <= k < |sorted| :: key(sorted[k]) > key(x)
    ensures Insert<T>(key, sorted, x) == Insert<T>(key, sorted[..j], x) + sorted[j..]
    decreases |sorted|
  {
    if j == |sorted| {
      assert sorted[..j] == sorted && sorted[j..] == [];
    } else {
      var init, last := sorted[..|sorted| - 1], sorted[|sorted| - 1];
      InsertBeforeLarger<T>(key, init, j, x);
      assert init[..j] == sorted[..j];
      assert init[j..] + [last] == sorted[j..];
    }
  }

  /** Stopping behind a member whose index is not above x's: x goes right there. */
  lemma InsertStop<T>(key: T -> int, sorted: seq<T>, j: nat, x: T)
    requires j <= |sorted| && (j == 0 || key(sorted[j - 1]) <= key(x))
    ensures Insert<T>(key, sorted[..j], x) == sorted[..j] + [x]
  {
  }

  /**
   * The array prefix after the last shift, read as a sequence: the members
   * before position j, then x, then the shifted members, which is the
   * insertion of x.
   */
  lemma InsertPlaced<T>(key: T -> int, sorted: seq<T>, j: nat, x: T, b: seq<T>)
    requires j <= |sorted| && |b| == |sorted| + 1
    requires forall k | 0 <= k < j :: b[k] == sorted[k]
    requires b[j] == x
    requires forall k | j < k < |b| :: b[k] == sorted[k - 1]
    requires j == 0 || key(sorted[j - 1]) <= key(x)
    requires forall k | j <= k < |sorted| :: key(sorted[k]) > key(x)
    ensures b == Insert<T>(key, sorted, x)
  {
    InsertBeforeLarger(key, sorted, j, x);
    InsertStop(key, sorted, j, x);
    var r := sorted[..j] + [x] + sorted[j..];
    forall k | 0 <= k < |b| ensures b[k] == r[k] {
      if k < j {
        assert r[k] == sorted[..j][k];
      } else if k > j {
        assert r[k] == sorted[j..][k - j - 1];
      }
    }
  }

  /**
   * One step of the in-place insertion sort: moves a[i] left past the
   * members of the sorted prefix a[..i] whose index is above its own.
   */
  method InsertAt<T>(key: T -> int, a: array<T>, i: nat)
    requires i < a.Length
    modifies a
    ensures a[..i + 1] == Insert(key, old(a[..i]), old(a[i]))
    ensures a[i + 1..] == old(a[i + 1..])
  {
    var x := a[i];
    ghost var sorted := a[..i];
    var j := i;
    while j > 0 && key(a[j - 1]) > key(x)
      invariant 0 <= j <= i
      invariant forall k | 0 <= k < j :: a[k] == sorted[k]
      invariant forall k | j < k <= i :: a[k] == sorted[k - 1]
      invariant forall k | i < k < a.Length :: a[k] == old(a[k])
      invariant forall k | j <= k < i :: key(sorted[k]) > key(x)
    {
      a[j] := a[j - 1];
      j := j - 1;
    }
    a[j] := x;
    InsertPlaced(key, sorted, j, x, a[..i + 1]);
  }

  /** `contents.sort(new FragmentComparator())`, in place. */
  method SortFragments<T>(key: T -> int, a: array<T>)
    modifies a
    ensures a[..] == SortByIndex<T>(key, old(a[..]))
  {
    var i := 0;
    while i < a.Length
      invariant 0 <= i <= a.Length
      invariant a[..i] == SortByIndex<T>(key, old(a[..])[..i])
      invariant a[i..] == old(a[..])[i..]
    {
      InsertAt<T>(key, a, i);
      assert old(a[..])[..i + 1][..i] == old(a[..])[..i];
      i := i + 1;
    }
    assert old(a[..])[..a.Length] == old(a[..]);
  }

  // ----- Examples -----

  /** A fragment with the given index and count and no other attributes. */
  function Fragment(id: nat, index: string, count: string): FlowFile {
    FlowFile(id, map[FRAGMENT_INDEX := index, FRAGMENT_COUNT := count], [])
  }

  /** Indices are not checked for duplicates: 0, 1, 1 of 3 is a complete set. */
  lemma DuplicateIndicesValidate()
    ensures ValidationError([Fragment(0, "0", "3"), Fragment(1, "1", "3"), Fragment(2, "1", "3")]) == None
  {
    var bin := [Fragment(0, "0", "3"), Fragment(1, "1", "3"), Fragment(2, "1", "3")];
    assert DigitsValue("3") == 3 by { assert "3"[..0] == []; }
    assert ScanFragments(bin, 3, Some("3")) == Success(Some("3"));
    assert ScanFragments(bin, 2, Some("3")) == Success(Some("3"));
    assert ScanFragments(bin, 1, Some("3")) == Success(Some("3"));
  }

  /** Counts are compared as strings: "03" and "3" disagree. */
  lemma CountsComparedAsText()
    ensures ValidationError([Fragment(0, "0", "03"), Fragment(1, "1", "3")]) == Some(CountMismatch(1, "03", "3"))
  {
    var bin := [Fragment(0, "0", "03"), Fragment(1, "1", "3")];
    assert ScanFragments(bin, 1, Some("03")) == Failure(CountMismatch(1, "03", "3"));
  }

  /** Appending a digit multiplies the value by ten and adds the digit. */
  lemma DigitsValueSnoc(s: string, c: char)
    requires AllDigits(s) && IsDigit(c)
    ensures AllDigits(s + [c]) && DigitsValue(s + [c]) == DigitsValue(s) * 10 + DigitValue(c)
  {
    assert (s + [c])[..|s|] == s;
  }

  /** The value of "21474", the first half of "2147483648". */
  lemma HighDigitsValue()
    ensures AllDigits("21474") && DigitsValue("21474") == 21474
  {
    assert DigitsValue("2") == 2 by { assert "2"[..0] == []; }
    DigitsValueSnoc("2", '1');
    assert "2" + ['1'] == "21";
    DigitsValueSnoc("21", '4');
    assert "21" + ['4'] == "214";
    DigitsValueSnoc("214", '7');
    assert "214" + ['7'] == "2147";
    DigitsValueSnoc("2147", '4');
    assert "2147" + ['4'] == "21474";
  }

  /** "2147483648" is all digits, one above the largest Java `int`. */
  lemma IntMaxPlusOneDigits()
    ensures AllDigits("2147483648") && DigitsValue("2147483648") == INT_MAX + 1
  {
    HighDigitsValue();
    DigitsValueSnoc("21474", '8');
    assert "21474" + ['8'] == "214748";
    DigitsValueSnoc("214748", '3');
    assert "214748" + ['3'] == "2147483";
    DigitsValueSnoc("2147483", '6');
    assert "2147483" + ['6'] == "21474836";
    DigitsValueSnoc("21474836", '4');
    assert "21474836" + ['4'] == "214748364";
    DigitsValueSnoc("214748364", '8');
    assert "214748364" + ['8'] == "2147483648";
  }

  /** `Integer.parseInt` rejects "2147483648". */
  lemma IntMaxPlusOneNotAnInt()
    ensures IsNumber(Some("2147483648")) && ParseInt("2147483648") == None
  {
    IntMaxPlusOneDigits();
    IsNumberParse("2147483648");
  }

  /**
   * An index just above the largest Java `int` is a number to the validator,
   * but not an `int` to the comparator, so the sort throws.
   */
  lemma OverflowingIndexThrowsInSort()
    ensures var bin := [Fragment(0, "2147483648", "2"), Fragment(1, "0", "2")];
      ValidationError(bin) == None && SortThrows(bin)
  {
    var bin := [Fragment(0, "2147483648", "2"), Fragment(1, "0", "2")];
    IntMaxPlusOneNotAnInt();
    assert DigitsValue("2") == 2 by { assert "2"[..0] == []; }
    assert ScanFragments(bin, 1, Some("2")) == Success(Some("2"));
    assert ParseIntAttr(bin[0]).None?;
  }
}
