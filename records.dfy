/** The dataset and the search filter (`filteredData`): the records whose
    folded `name` includes the folded search term, in their original order. */
module Records {
  import opened Strings

  /** A JSON value as the table shows it. */
  datatype Value = Str(text: string) | Num(number: real) | Bool(truth: bool) | Null

  /** One station record: attribute key to value. */
  type Record = map<string, Value>

  /** Outcome of evaluating the filter over the dataset: the kept records, or
      the TypeError thrown at the first record whose `name` is not a string
      (folding such a name throws a TypeError in JavaScript). */
  datatype Filtered = View(records: seq<Record>) | TypeError(at: nat)

  /** The record's name can be case-folded: it is present and a string. */
  predicate HasName(r: Record) {
    "name" in r && r["name"].Str?
  }

  function NameOf(r: Record): string
    requires HasName(r)
  {
    r["name"].text
  }

  predicate AllNamed(data: seq<Record>) {
    forall k | 0 <= k < |data| :: HasName(data[k])
  }

  /** The filter's predicate for one record. The empty term matches every
      name; a term longer than the name matches none. */
  predicate Matches(r: Record, term: string)
    requires HasName(r)
    ensures term == "" ==> Matches(r, term)
    ensures Matches(r, term) ==> |term| <= |NameOf(r)|
  {
    Includes(Lower(NameOf(r)), Lower(term))
  }

  /** The filtered view: scans the dataset left to right, keeping each
      record whose folded name includes the folded term, and fails at the
      first record whose name is not a string. */
  function FilteredData(data: seq<Record>, term: string): (r: Filtered)
    ensures r.TypeError? <==> !AllNamed(data)
    ensures r.TypeError? ==> r.at < |data| && !HasName(data[r.at]) && AllNamed(data[..r.at])
    ensures r.View? ==> forall k | 0 <= k < |r.records| :: HasName(r.records[k]) && Matches(r.records[k], term)
    decreases |data|
  {
    if data == [] then View([])
    else if !HasName(data[0]) then TypeError(0)
    else
      match FilteredData(data[1..], term)
      case TypeError(i) => TypeError(i + 1)
      case View(rest) =>
        assert data == [data[0]] + data[1..];
        View(if Matches(data[0], term) then [data[0]] + rest else rest)
  }

  /** One step of the filter: a named record in front is kept exactly when
      it matches, and the rest is filtered on its own. */
  lemma FilterCons(r: Record, rest: seq<Record>, term: string)
    requires HasName(r)
    ensures FilteredData([r] + rest, term) ==
      match FilteredData(rest, term)
      case TypeError(i) => TypeError(i + 1)
      case View(kept) => View(if Matches(r, term) then [r] + kept else kept)
  {
    assert ([r] + rest)[1..] == rest;
  }

  /** The kept records are exactly the records at the matching positions, in
      increasing order: the filter is sound, complete and order-preserving. */
  lemma {:induction false} FilterSelectsMatchingPositions(data: seq<Record>, term: string) returns (idx: seq<nat>)
    requires AllNamed(data)
    ensures FilteredData(data, term).View?
    ensures |idx| == |FilteredData(data, term).records|
    ensures forall k | 0 <= k < |idx| :: idx[k] < |data| && FilteredData(data, term).records[k] == data[idx[k]]
    ensures forall k, l | 0 <= k < l < |idx| :: idx[k] < idx[l]
    ensures forall i | 0 <= i < |data| :: i in idx <==> Matches(data[i], term)
    decreases |data|
  {
    if data == [] {
      return [];
    }
    AllNamedTail(data);
    var tail := FilterSelectsMatchingPositions(data[1..], term);
    var rest := FilteredData(data[1..], term).records;
    var shifted := ShiftPositions(data, rest, tail);
    if Matches(data[0], term) {
      idx := KeepFirstPosition(data, rest, shifted);
    } else {
      idx := shifted;
    }
    forall i | 0 <= i < |data| ensures i in idx <==> Matches(data[i], term) {
      if i > 0 {
        assert data[1..][i - 1] == data[i];
      }
    }
  }

  /** Positions of `rest` in `data[1..]`, moved to positions in `data`. */
  lemma ShiftPositions<T>(data: seq<T>, rest: seq<T>, tail: seq<nat>) returns (shifted: seq<nat>)
    requires data != []
    requires |tail| == |rest|
    requires forall k | 0 <= k < |tail| :: tail[k] < |data| - 1 && rest[k] == data[1..][tail[k]]
    requires forall k, l | 0 <= k < l < |tail| :: tail[k] < tail[l]
    ensures |shifted| == |rest|
    ensures forall k | 0 <= k < |shifted| :: 0 < shifted[k] < |data| && rest[k] == data[shifted[k]]
    ensures forall k, l | 0 <= k < l < |shifted| :: shifted[k] < shifted[l]
    ensures forall i | 1 <= i < |data| :: i in shifted <==> i - 1 in tail
  {
    shifted := seq(|tail|, k requires 0 <= k < |tail| => tail[k] + 1);
    forall k | 0 <= k < |tail| ensures rest[k] == data[shifted[k]] {
      assert data[1..][tail[k]] == data[tail[k] + 1];
    }
    forall i | 1 <= i < |data| ensures i in shifted <==> i - 1 in tail {
      if i - 1 in tail {
        var k :| 0 <= k < |tail| && tail[k] == i - 1;
        assert shifted[k] == i;
      }
    }
  }

  /** Adds position 0 in front of positions that all lie after it. */
  lemma KeepFirstPosition<T>(data: seq<T>, rest: seq<T>, shifted: seq<nat>) returns (idx: seq<nat>)
    requires data != []
    requires |shifted| == |rest|
    requires forall k | 0 <= k < |shifted| :: 0 < shifted[k] < |data| && rest[k] == data[shifted[k]]
    requires forall k, l | 0 <= k < l < |shifted| :: shifted[k] < shifted[l]
    ensures |idx| == |[data[0]] + rest|
    ensures forall k | 0 <= k < |idx| :: idx[k] < |data| && ([data[0]] + rest)[k] == data[idx[k]]
    ensures forall k, l | 0 <= k < l < |idx| :: idx[k] < idx[l]
    ensures 0 in idx
    ensures forall i | 1 <= i < |data| :: i in idx <==> i in shifted
  {
    idx := [0] + shifted;
    var view := [data[0]] + rest;
    forall k | 0 <= k < |idx| ensures idx[k] < |data| && view[k] == data[idx[k]] {
      if k > 0 {
        assert idx[k] == shifted[k - 1] && view[k] == rest[k - 1];
      }
    }
    forall k, l | 0 <= k < l < |idx| ensures idx[k] < idx[l] {
      assert idx[l] == shifted[l - 1];
      if k > 0 {
        assert idx[k] == shifted[k - 1];
      }
    }
  }

  lemma AllNamedTail(data: seq<Record>)
    requires data != [] && AllNamed(data)
    ensures AllNamed(data[1..])
  {
    forall k | 0 <= k < |data[1..]| ensures HasName(data[1..][k]) {
      assert data[1..][k] == data[k + 1];
    }
  }

  /** With an empty search term nothing is filtered out. */
  lemma {:induction false} FilterEmptyTerm(data: seq<Record>)
    requires AllNamed(data)
    ensures FilteredData(data, "") == View(data)
    decreases |data|
  {
    if data != [] {
      AllNamedTail(data);
      FilterEmptyTerm(data[1..]);
      IncludesEmpty(Lower(NameOf(data[0])));
      assert Lower("") == "";
      assert [data[0]] + data[1..] == data;
    }
  }

  /** Filtering the filtered view again with the same term changes nothing. */
  lemma {:induction false} FilterIdempotent(data: seq<Record>, term: string)
    requires AllNamed(data)
    ensures FilteredData(FilteredData(data, term).records, term) == FilteredData(data, term)
    decreases |data|
  {
    if data != [] {
      AllNamedTail(data);
      FilterIdempotent(data[1..], term);
      var rest := FilteredData(data[1..], term).records;
      if Matches(data[0], term) {
        assert ([data[0]] + rest)[1..] == rest;
      }
    }
  }

  /** Narrowing the search: when the folded `wide` term is part of the folded
      `narrow` term, filtering by `wide` and then by `narrow` is the same as
      filtering by `narrow` alone. */
  lemma {:induction false} FilterNarrowing(data: seq<Record>, wide: string, narrow: string)
    requires AllNamed(data)
    requires Includes(Lower(narrow), Lower(wide))
    ensures FilteredData(FilteredData(data, wide).records, narrow) == FilteredData(data, narrow)
    decreases |data|
  {
    if data != [] {
      AllNamedTail(data);
      FilterNarrowing(data[1..], wide, narrow);
      var rest := FilteredData(data[1..], wide).records;
      if Matches(data[0], narrow) {
        IncludesTransitive(Lower(NameOf(data[0])), Lower(narrow), Lower(wide));
      }
      if Matches(data[0], wide) {
        assert ([data[0]] + rest)[1..] == rest;
      }
    }
  }

  /** Every record kept for the narrower term is also kept for the wider one. */
  lemma KeptForNarrowIsKeptForWide(data: seq<Record>, wide: string, narrow: string, x: Record)
    requires AllNamed(data)
    requires Includes(Lower(narrow), Lower(wide))
    requires x in FilteredData(data, narrow).records
    ensures x in FilteredData(data, wide).records
  {
    FilterNarrowing(data, wide, narrow);
    var view := FilteredData(data, wide).records;
    assert AllNamed(view);
    var idx := FilterSelectsMatchingPositions(view, narrow);
    var k :| 0 <= k < |idx| && FilteredData(view, narrow).records[k] == x;
  }
}
