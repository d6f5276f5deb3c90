/** Type names as printed for DPS, and the functions that take them apart again. */
module Demangle {
  import opened Wrappers
  import opened Strings

  const DPS := "dps_::"
  const REQUEST := "_Request_"
  const RESPONSE := "_Response_"

  /** The namespace part of a printed type. */
  function Qualifier(namespace_: string): string {
    if namespace_ == "" then "" else namespace_ + "::"
  }

  function CreateTypeName(namespace_: string, name: string): string {
    Qualifier(namespace_) + DPS + name + "_"
  }

  function Slashed(s: string): string {
    FindAndReplace(s, "::", "/")
  }

  /** The source reads the last character of the type, so there must be one. */
  function DemangleIfRosType(s: string): string
    requires s != ""
  {
    if s[|s| - 1] != '_' then s else
      match Find(s, DPS, 0)
      case None => s
      case Some(p) => Slashed(s[..p]) + s[p + |DPS|..|s| - 1]
  }

  /** `suffix_position` after the loop over the suffixes from `position`: the loop stops at a
      suffix that ends the type, and goes on with the position of one that does not. */
  function SuffixPosition(s: string, suffixes: seq<string>, position: Option<nat>): (r: Option<nat>)
    requires position.Some? ==> position.value <= |s|
    ensures r.Some? ==> r.value <= |s|
  {
    if suffixes == [] then position else
      match RFind(s, suffixes[0])
      case None => SuffixPosition(s, suffixes[1..], None)
      case Some(p) => if p + |suffixes[0]| == |s| then Some(p) else SuffixPosition(s, suffixes[1..], Some(p))
  }

  function DemangleServiceTypeOnly(s: string): string {
    match Find(s, DPS, 0)
    case None => ""
    case Some(p) =>
      match SuffixPosition(s, [RESPONSE, REQUEST], Some(0))
      case None => ""
      case Some(end) =>
        var start := p + |DPS|;
        Slashed(s[..p]) + if start <= end then s[start..end] else s[start..]
  }

  /** `_demangle_service_type_only`, with its loop. */
  method DemangleServiceType(s: string) returns (r: string)
    ensures r == DemangleServiceTypeOnly(s)
  {
    var namespaceEnd := Find(s, DPS, 0);
    if namespaceEnd.None? {
      return "";
    }
    var suffixes := [RESPONSE, REQUEST];
    var position: Option<nat> := Some(0);
    var i := 0;
    while i < |suffixes|
      invariant i <= |suffixes| && (position.Some? ==> position.value <= |s|)
      invariant SuffixPosition(s, suffixes, Some(0)) == SuffixPosition(s, suffixes[i..], position)
    {
      assert suffixes[i..][0] == suffixes[i] && suffixes[i..][1..] == suffixes[i + 1..];
      position := RFind(s, suffixes[i]);
      if position.Some? && position.value + |suffixes[i]| == |s| {
        break;
      }
      i := i + 1;
    }
    if position.None? {
      return "";
    }
    var start := namespaceEnd.value + |DPS|;
    var name := if start <= position.value then s[start..position.value] else s[start..];
    return Slashed(s[..namespaceEnd.value]) + name;
  }

  // ---------- where the pieces are found ----------

  /** Nothing straddles the front of "dps_::", so its first occurrence is inside the qualifier or
      just after it. */
  lemma FirstDps(q: string, rest: string)
    ensures Find(q + DPS + rest, DPS, 0) == if Find(q, DPS, 0).Some? then Find(q, DPS, 0) else Some(|q|)
  {
    var s := q + DPS + rest;
    assert s[|q|..|q| + 6] == DPS;
    assert s[|q|] == 'd';
    forall j: nat | j < |q|
      ensures OccursAt(s, DPS, j) <==> OccursAt(q, DPS, j)
    {
      if j + 6 <= |q| {
        assert s[j..j + 6] == q[j..j + 6];
      } else if OccursAt(s, DPS, j) {
        OccurrenceChar(s, DPS, j, |q| - j);
      }
    }
    assert OccursAt(s, DPS, |q|);
    if Find(q, DPS, 0).Some? {
      assert Find(q, DPS, 0).value < |q|;
    }
  }

  lemma {:induction false} SlashedIsNotLonger(s: string)
    ensures |Slashed(s)| <= |s|
    decreases |s|
  {
    var r := Find(s, "::", 0);
    if r.Some? {
      SlashedIsNotLonger(s[r.value + 2..]);
    }
  }

  /** "::" is first found where it is in the part before "dps_::", or else in "dps_::" itself. */
  lemma FirstColons(a: string, t: string)
    ensures Find(a + DPS + t, "::", 0) == if Find(a, "::", 0).Some? then Find(a, "::", 0) else Some(|a| + 4)
  {
    var s := a + DPS + t;
    assert s[|a| + 4..|a| + 6] == "::";
    assert OccursAt(s, "::", |a| + 4);
    forall j: nat | j < |a| + 4
      ensures OccursAt(s, "::", j) <==> OccursAt(a, "::", j)
    {
      if j + 2 <= |a| {
        assert s[j..j + 2] == a[j..j + 2];
      } else {
        var k := if j < |a| then |a| else j;
        assert s[k] == DPS[k - |a|];
        if OccursAt(s, "::", j) {
          OccurrenceChar(s, "::", j, k - j);
        }
      }
    }
  }

  lemma {:induction false} SlashedAroundDps(a: string, t: string)
    ensures |Slashed(a + DPS + t)| <= |Slashed(a)| + 5 + |t|
    decreases |a|
  {
    var s := a + DPS + t;
    FirstColons(a, t);
    var r := Find(a, "::", 0);
    if r.Some? {
      var i := r.value;
      assert s[i + 2..] == a[i + 2..] + DPS + t;
      SlashedAroundDps(a[i + 2..], t);
    } else {
      assert s[|a| + 6..] == t;
      SlashedIsNotLonger(t);
    }
  }

  /** Taking a printed type apart at the first "dps_::" gives the slash form and what follows,
      if and only if that "dps_::" is not in the qualifier. */
  lemma SplitAtDps(q: string, rest: string)
    ensures var p := Find(q + DPS + rest, DPS, 0);
            && p.Some? && p.value <= |q|
            && (Slashed((q + DPS + rest)[..p.value]) + (q + DPS + rest)[p.value + 6..] == Slashed(q) + rest
                <==> Find(q, DPS, 0).None?)
  {
    hide Find, FindAndReplace;
    var s := q + DPS + rest;
    FirstDps(q, rest);
    var p := Find(s, DPS, 0).value;
    if Find(q, DPS, 0).None? {
      assert s[..p] == q && s[p + 6..] == rest;
    } else {
      var a, t := q[..p], q[p + 6..];
      assert s[..p] == a;
      assert q == a + DPS + t;
      SlashedAroundDps(a, t);
      assert |s[p + 6..]| == |t| + 6 + |rest|;
    }
  }

  /** "dps_::" does not end in an underscore, so it ends before one. */
  lemma EndsBeforeUnderscore(s: string, p: nat)
    requires s != "" && s[|s| - 1] == '_' && OccursAt(s, DPS, p)
    ensures p + 6 < |s| && s[p + 6..] == s[p + 6..|s| - 1] + "_"
  {
    OccurrenceChar(s, DPS, p, 5);
    assert DPS[5] == ':';
  }

  /** Demangling a type that ends in an underscore drops it and takes the rest apart. */
  lemma DemangledWithUnderscore(s: string, p: nat)
    requires s != "" && s[|s| - 1] == '_' && Find(s, DPS, 0) == Some(p)
    ensures DemangleIfRosType(s) + "_" == Slashed(s[..p]) + s[p + 6..]
  {
    EndsBeforeUnderscore(s, p);
    hide Find, FindAndReplace, OccursAt;
    var name := s[p + 6..|s| - 1];
    assert DemangleIfRosType(s) == Slashed(s[..p]) + name;
    hide DemangleIfRosType;
    Regroup(Slashed(s[..p]), name, "_");
  }

  lemma Regroup(a: string, b: string, c: string)
    ensures a + b + c == a + (b + c)
  {
  }

  /** The type-name round trip: demangling a printed type gives the slash form of the namespace
      and then the name, if and only if "dps_::" does not occur in the namespace and its "::". */
  lemma DemangleUndoesCreate(namespace_: string, name: string)
    ensures DemangleIfRosType(CreateTypeName(namespace_, name)) == Slashed(Qualifier(namespace_)) + name
       <==> Find(Qualifier(namespace_), DPS, 0).None?
  {
    hide Find, FindAndReplace;
    var q := Qualifier(namespace_);
    var s := CreateTypeName(namespace_, name);
    assert s == q + DPS + (name + "_");
    SplitAtDps(q, name + "_");
    DemangledWithUnderscore(s, Find(s, DPS, 0).value);
    hide DemangleIfRosType;
    Regroup(Slashed(q), name, "_");
    LastDropped(DemangleIfRosType(s), Slashed(q) + name);
  }

  lemma LastDropped(a: string, b: string)
    ensures a + "_" == b + "_" <==> a == b
  {
    if a + "_" == b + "_" {
      assert (a + "_")[..|a|] == a && (b + "_")[..|b|] == b;
    }
  }

  /** A suffix that ends the string stops the loop at its own start. */
  lemma SuffixAtEnd(front: string, suffixes: seq<string>, position: Option<nat>)
    requires suffixes != [] && (position.Some? ==> position.value <= |front + suffixes[0]|)
    ensures SuffixPosition(front + suffixes[0], suffixes, position) == Some(|front|)
  {
    hide RFind;
    var s := front + suffixes[0];
    assert s[|front|..] == suffixes[0];
    assert OccursAt(s, suffixes[0], |front|);
  }

  lemma RequestEnds(front: string)
    ensures SuffixPosition(front + REQUEST, [RESPONSE, REQUEST], Some(0)) == Some(|front|)
  {
    hide RFind;
    var s, suffixes := front + REQUEST, [RESPONSE, REQUEST];
    NotAResponse(front);
    var r := RFind(s, RESPONSE);
    assert suffixes[1..] == [REQUEST];
    SuffixAtEnd(front, [REQUEST], r);
  }

  /** The seventh character from the end tells the two suffixes apart. */
  lemma NotAResponse(front: string)
    ensures forall i: nat | OccursAt(front + REQUEST, RESPONSE, i) :: i + |RESPONSE| != |front + REQUEST|
  {
    var s := front + REQUEST;
    assert s[|s| - 7] == REQUEST[2] == 'e';
    forall i: nat | OccursAt(s, RESPONSE, i)
      ensures i + |RESPONSE| != |s|
    {
      OccurrenceChar(s, RESPONSE, i, 3);
    }
  }

  lemma DemangleAtSuffix(q: string, service: string, suffix: string)
    requires SuffixPosition(q + DPS + service + suffix, [RESPONSE, REQUEST], Some(0)) == Some(|q + DPS + service|)
    ensures DemangleServiceTypeOnly(q + DPS + service + suffix) == Slashed(q) + service <==> Find(q, DPS, 0).None?
  {
    var s, front := q + DPS + service + suffix, q + DPS + service;
    assert s == q + DPS + (service + suffix);
    SplitAtDps(q, service);
    FirstDps(q, service);
    FirstDps(q, service + suffix);
    var p := Find(s, DPS, 0).value;
    assert s[..p] == front[..p] && s[p + 6..|front|] == front[p + 6..];
  }

  /** The request type of any service, even one whose name contains a suffix, demangles to the
      service's own name, under the same condition. */
  lemma DemangleUndoesCreateForRequests(namespace_: string, service: string)
    ensures DemangleServiceTypeOnly(CreateTypeName(namespace_, service + "_Request"))
       == Slashed(Qualifier(namespace_)) + service
       <==> Find(Qualifier(namespace_), DPS, 0).None?
  {
    var q := Qualifier(namespace_);
    var front := q + DPS + service;
    assert CreateTypeName(namespace_, service + "_Request") == front + REQUEST;
    RequestEnds(front);
    DemangleAtSuffix(q, service, REQUEST);
  }

  /** And so does its response type. */
  lemma DemangleUndoesCreateForResponses(namespace_: string, service: string)
    ensures DemangleServiceTypeOnly(CreateTypeName(namespace_, service + "_Response"))
       == Slashed(Qualifier(namespace_)) + service
       <==> Find(Qualifier(namespace_), DPS, 0).None?
  {
    var q := Qualifier(namespace_);
    var front := q + DPS + service;
    assert CreateTypeName(namespace_, service + "_Response") == front + RESPONSE;
    SuffixAtEnd(front, [RESPONSE, REQUEST], Some(0));
    DemangleAtSuffix(q, service, RESPONSE);
  }

  // ---------- other types ----------

  /** A printed type, spelled out. */
  lemma TypeNameText(namespace_: string, name: string)
    ensures CreateTypeName(namespace_, name)
         == (if namespace_ == "" then "" else namespace_ + "::") + "dps_::" + name + "_"
    ensures CreateTypeName("std_msgs::msg", "String") == "std_msgs::msg::dps_::String_"
  {
  }

  /** A type that does not end in an underscore, or in which "dps_::" does not occur, is left as it is. */
  lemma OtherTypesAreUnchanged(s: string)
    requires s != "" && (s[|s| - 1] != '_' || forall i: nat :: !OccursAt(s, "dps_::", i))
    ensures DemangleIfRosType(s) == s
  {
    var p := Find(s, DPS, 0);
    hide Find;
    assert p.Some? ==> OccursAt(s, "dps_::", p.value);
  }

  /** A type in which "dps_::" does not occur, or neither suffix, is no service type. */
  lemma OtherTypesAreNoServices(s: string)
    requires (forall i: nat :: !OccursAt(s, "dps_::", i))
          || forall i: nat :: !OccursAt(s, "_Request_", i) && !OccursAt(s, "_Response_", i)
    ensures DemangleServiceTypeOnly(s) == ""
  {
    var p, response, request := Find(s, DPS, 0), RFind(s, RESPONSE), RFind(s, REQUEST);
    hide Find, RFind;
    assert p.Some? ==> OccursAt(s, "dps_::", p.value);
    if p.Some? {
      assert response.None? && request.None?;
      assert [RESPONSE, REQUEST][1..] == [REQUEST] && [REQUEST][1..] == [];
      assert SuffixPosition(s, [REQUEST], None) == SuffixPosition(s, [], None) == None;
    }
  }

  /** A service type with something after its suffix is demangled all the same. */
  lemma SuffixBeforeTheEnd(q: string, service: string, more: string)
    requires more != "" && '_' !in more
    ensures DemangleServiceTypeOnly(q + DPS + service + "_Request_" + more) == Slashed(q) + service
       <==> Find(q, DPS, 0).None?
  {
    var front := q + DPS + service;
    var s := front + REQUEST + more;
    LastRequest(front, more);
    hide RFind, Find, FindAndReplace;
    var response := RFind(s, RESPONSE);
    assert [RESPONSE, REQUEST][1..] == [REQUEST] && [REQUEST][1..] == [];
    assert SuffixPosition(s, [REQUEST], response) == SuffixPosition(s, [], Some(|front|)) == Some(|front|);
    assert s == front + (REQUEST + more);
    DemangleAtSuffix(q, service, REQUEST + more);
  }

  /** Behind the suffix there is no underscore for another one to end with. */
  lemma LastRequest(front: string, more: string)
    requires more != "" && '_' !in more
    ensures RFind(front + REQUEST + more, REQUEST) == Some(|front|)
    ensures forall i: nat | OccursAt(front + REQUEST + more, RESPONSE, i) ::
              i + |RESPONSE| != |front + REQUEST + more|
  {
    var s, end := front + REQUEST + more, |front| + |REQUEST|;
    assert s[|front|..end] == REQUEST;
    assert OccursAt(s, REQUEST, |front|);
    NoUnderscores(front, more);
    forall i: nat | OccursAt(s, REQUEST, i)
      ensures i <= |front|
    {
      OccurrenceChar(s, REQUEST, i, 8);
    }
    forall i: nat | OccursAt(s, RESPONSE, i)
      ensures i + |RESPONSE| != |s|
    {
      OccurrenceChar(s, RESPONSE, i, 9);
    }
  }

  lemma NoUnderscores(front: string, more: string)
    requires '_' !in more
    ensures forall k :: |front| + |REQUEST| <= k < |front + REQUEST + more| ==> (front + REQUEST + more)[k] != '_'
  {
    assert forall k :: |front| + |REQUEST| <= k < |front + REQUEST + more| ==>
             (front + REQUEST + more)[k] == more[k - |front| - |REQUEST|];
  }

  // ---------- the slash form of a namespace ----------

  function Qualified(components: seq<string>): string {
    if components == [] then "" else components[0] + "::" + Qualified(components[1..])
  }

  function WithSlashes(components: seq<string>): string {
    if components == [] then "" else components[0] + "/" + WithSlashes(components[1..])
  }

  /** For components without colons, the slash form replaces each "::" by one slash. */
  lemma {:induction false} SlashedNamespace(components: seq<string>)
    requires forall i :: 0 <= i < |components| ==> ':' !in components[i]
    ensures Slashed(Qualified(components)) == WithSlashes(components)
  {
    if components != [] {
      var s := Qualified(components);
      var first, tail := components[0], Qualified(components[1..]);
      assert s[|first|..|first| + 2] == "::";
      assert OccursAt(s, "::", |first|);
      forall j: nat | j < |first|
        ensures !OccursAt(s, "::", j)
      {
        assert s[j] == first[j];
        if OccursAt(s, "::", j) {
          OccurrenceChar(s, "::", j, 0);
        }
      }
      assert s[..|first|] == first && s[|first| + 2..] == tail;
      assert Find(s, "::", 0) == Some(|first|);
      hide Find;
      SlashedNamespace(components[1..]);
    }
  }
}
