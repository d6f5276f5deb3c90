/** The `std::string` searches the repository relies on, and joining and splitting at commas. */
module Strings {
  import opened Wrappers

  predicate OccursAt(s: string, p: string, i: nat) {
    i + |p| <= |s| && s[i..i + |p|] == p
  }

  /** `s.find(p, from)`: the first occurrence not before `from`. */
  function Find(s: string, p: string, from: nat): (r: Option<nat>)
    ensures r.Some? ==> from <= r.value && OccursAt(s, p, r.value)
    ensures forall j: nat | from <= j && OccursAt(s, p, j) :: r.Some? && r.value <= j
    decreases |s| - from
  {
    if from + |p| > |s| then None
    else if s[from..from + |p|] == p then Some(from)
    else if from == |s| then None
    else Find(s, p, from + 1)
  }

  /** `s.rfind(p)`: the last occurrence. */
  function RFind(s: string, p: string): (r: Option<nat>)
    ensures r.Some? ==> OccursAt(s, p, r.value)
    ensures forall j: nat | OccursAt(s, p, j) :: r.Some? && j <= r.value
  {
    RFindUpTo(s, p, |s|)
  }

  function RFindUpTo(s: string, p: string, upTo: nat): (r: Option<nat>)
    requires upTo <= |s|
    ensures r.Some? ==> r.value <= upTo && OccursAt(s, p, r.value)
    ensures forall j: nat | j <= upTo && OccursAt(s, p, j) :: r.Some? && j <= r.value
  {
    if upTo + |p| <= |s| && s[upTo..upTo + |p|] == p then Some(upTo)
    else if upTo == 0 then None
    else RFindUpTo(s, p, upTo - 1)
  }

  /** `rcpputils::find_and_replace`: every occurrence from the left, skipping what was put in. */
  function FindAndReplace(s: string, find: string, put: string): string
    requires find != ""
    decreases |s|
  {
    match Find(s, find, 0)
    case None => s
    case Some(i) => s[..i] + put + FindAndReplace(s[i + |find|..], find, put)
  }

  function Join(parts: seq<string>): string
    requires parts != []
  {
    if |parts| == 1 then parts[0] else parts[0] + "," + Join(parts[1..])
  }

  /** The parts of `s[from..]` between commas. */
  function SplitFrom(s: string, from: nat): (parts: seq<string>)
    requires from <= |s|
    ensures parts != []
    decreases |s| - from
  {
    match Find(s, ",", from)
    case None => [s[from..]]
    case Some(i) => [s[from..i]] + SplitFrom(s, i + 1)
  }

  /** An occurrence shows each of its characters. */
  lemma OccurrenceChar(s: string, p: string, i: nat, k: nat)
    requires OccursAt(s, p, i) && k < |p|
    ensures s[i + k] == p[k]
  {
    assert s[i..i + |p|][k] == p[k];
  }

  /** The next comma is found just after a part without commas, if anything follows it. */
  lemma NextComma(before: string, part: string, after: string)
    requires ',' !in part
    ensures Find(before + part + "," + after, ",", |before|) == Some(|before| + |part|)
    ensures Find(before + part, ",", |before|) == None
  {
    var s, end := before + part + "," + after, |before| + |part|;
    NoCommaWithin(before, part, "," + after);
    assert s == before + part + ("," + after);
    assert s[end..end + 1] == ",";
    assert OccursAt(s, ",", end);
    NoCommaWithin(before, part, "");
    assert before + part + "" == before + part;
    assert Find(before + part, ",", |before|).None?;
  }

  lemma NoCommaWithin(before: string, part: string, after: string)
    requires ',' !in part
    ensures forall j: nat | |before| <= j < |before| + |part| :: !OccursAt(before + part + after, ",", j)
  {
    var s := before + part + after;
    forall j: nat | |before| <= j < |before| + |part|
      ensures !OccursAt(s, ",", j)
    {
      assert s[j] == part[j - |before|];
      assert s[j..j + 1][0] == s[j];
    }
  }

  lemma {:induction false} SplitUndoesJoin(before: string, parts: seq<string>)
    requires parts != [] && forall i :: 0 <= i < |parts| ==> ',' !in parts[i]
    ensures SplitFrom(before + Join(parts), |before|) == parts
    decreases |parts|
  {
    hide Find;
    var s, part, tail := before + Join(parts), parts[0], parts[1..];
    var end := |before| + |part|;
    assert parts == [part] + tail;
    if tail == [] {
      NextComma(before, part, "");
      assert s[|before|..] == part;
    } else {
      NextComma(before, part, Join(tail));
      var next := before + part + ",";
      assert s == next + Join(tail);
      SplitUndoesJoin(next, tail);
      assert s[|before|..end] == part;
    }
  }

  lemma {:induction false} JoinHasNo(parts: seq<string>, c: char)
    requires parts != [] && c != ',' && forall i :: 0 <= i < |parts| ==> c !in parts[i]
    ensures c !in Join(parts)
  {
    if |parts| > 1 {
      JoinHasNo(parts[1..], c);
    }
  }
}
