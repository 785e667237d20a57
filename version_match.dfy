/**
 * Version names in a version directory's name: the identifiers of the
 * version lookup, sorted longest first and joined into one regular
 * expression alternation, found with `findall` in the lower-cased name.
 */
module VersionMatch {
  import opened Wrappers
  import opened Text
  import opened Sorting

  /** The version lookup: a dict from version identifier to version id,
      in insertion order. */
  type VersionLookup = seq<(string, int)>

  function Keys(lookup: VersionLookup): (ks: seq<string>)
    ensures |ks| == |lookup|
    ensures forall i :: 0 <= i < |ks| ==> ks[i] == lookup[i].0
  {
    seq(|lookup|, i requires 0 <= i < |lookup| => lookup[i].0)
  }

  /** A dict's keys are distinct. An identifier may be empty. */
  predicate ValidLookup(lookup: VersionLookup)
  {
    forall i, j :: 0 <= i < j < |lookup| ==> lookup[i].0 != lookup[j].0
  }

  /** `version_lookup[name]`. */
  function Lookup(lookup: VersionLookup, name: string): (id: int)
    requires name in Keys(lookup)
    ensures exists i :: 0 <= i < |lookup| && lookup[i] == (name, id)
  {
    if lookup[0].0 == name then lookup[0].1
    else
      assert name in Keys(lookup[1..]) by {
        var i :| 0 <= i < |lookup| && Keys(lookup)[i] == name;
        assert Keys(lookup[1..])[i - 1] == name;
      }
      var id := Lookup(lookup[1..], name);
      ghost var i :| 0 <= i < |lookup[1..]| && lookup[1..][i] == (name, id);
      assert lookup[i + 1] == (name, id);
      id
  }

  function NegLength(k: string): int { -|k| }

  /** `sorted(version_lookup.keys(), key=len, reverse=True)`. */
  function Alternation(lookup: VersionLookup): (alts: seq<string>)
    ensures multiset(alts) == multiset(Keys(lookup))
  {
    SortBy(Keys(lookup), NegLength)
  }

  predicate OccursAt(s: string, i: nat, a: string)
  {
    i + |a| <= |s| && s[i..i + |a|] == a
  }

  /** The alternation at one position: its first alternative that occurs there. */
  function MatchAt(s: string, i: nat, alts: seq<string>): (m: Option<string>)
    ensures m.Some? ==> m.value in alts && OccursAt(s, i, m.value)
    ensures m.None? ==> forall a :: a in alts ==> !OccursAt(s, i, a)
  {
    if alts == [] then None
    else if OccursAt(s, i, alts[0]) then Some(alts[0])
    else MatchAt(s, i, alts[1..])
  }

  /** Where the scan goes on after a match of a: its end, or the next
      position after an empty match. */
  function Resume(i: nat, a: string): (j: nat)
    ensures j > i
  {
    if a == [] then i + 1 else i + |a|
  }

  /** `findall` from position i: after a match the scan resumes at its end;
      where nothing matches it moves on by one character. Each match is
      returned with its position. An empty identifier is the last
      alternative, so it matches, with the empty string, exactly where no
      other name occurs, the end of the string included; the scan then moves
      on by one character. */
  function Matches(s: string, i: nat, alts: seq<string>): (ms: seq<(nat, string)>)
    requires i <= |s|
    requires NonIncreasingLength(alts)
    ensures forall k :: 0 <= k < |ms| ==> i <= ms[k].0 <= |s| && ms[k].1 in alts
    decreases |s| - i
  {
    match MatchAt(s, i, alts)
    case Some(a) => [(i, a)] + (if i == |s| then [] else Matches(s, Resume(i, a), alts))
    case None => if i == |s| then [] else Matches(s, i + 1, alts)
  }

  function Names(ms: seq<(nat, string)>): (ns: seq<string>)
    ensures |ns| == |ms|
    ensures forall k :: 0 <= k < |ms| ==> ns[k] == ms[k].1
  {
    seq(|ms|, k requires 0 <= k < |ms| => ms[k].1)
  }

  /** `version_regex.findall(name.lower())`. */
  function FindVersions(dirName: string, lookup: VersionLookup): (vs: seq<string>)
    requires ValidLookup(lookup)
    ensures forall v :: v in vs ==> v in Keys(lookup)
  {
    var alts := Alternation(lookup);
    AlternationLongestFirst(lookup);
    assert forall a :: a in alts ==> a in multiset(Keys(lookup));
    var ms := Matches(Lower(dirName), 0, alts);
    assert forall k :: 0 <= k < |ms| ==> ms[k].1 in multiset(alts);
    Names(ms)
  }

  /** `[version_lookup[v] for v in versions]`. */
  function VersionIds(lookup: VersionLookup, versions: seq<string>): (ids: seq<int>)
    requires forall v :: v in versions ==> v in Keys(lookup)
    ensures |ids| == |versions|
  {
    seq(|versions|, k requires 0 <= k < |versions| => Lookup(lookup, versions[k]))
  }

  predicate NonIncreasingLength(alts: seq<string>)
  {
    forall i, j :: 0 <= i < j < |alts| ==> |alts[i]| >= |alts[j]|
  }

  /** No name of `alts` occurring at position p is longer than a. */
  predicate Longest(s: string, p: nat, alts: seq<string>, a: string)
  {
    forall b {:trigger OccursAt(s, p, b)} :: b in alts && OccursAt(s, p, b) ==> |b| <= |a|
  }

  lemma {:induction false} MatchAtLongest(s: string, i: nat, alts: seq<string>)
    requires NonIncreasingLength(alts)
    ensures MatchAt(s, i, alts).Some? ==> Longest(s, i, alts, MatchAt(s, i, alts).value)
  {
    if alts != [] && !OccursAt(s, i, alts[0]) {
      MatchAtLongest(s, i, alts[1..]);
      forall b | b in alts && OccursAt(s, i, b)
        ensures b in alts[1..]
      {
        var j :| 0 <= j < |alts| && alts[j] == b;
        assert j > 0;
        assert alts[1..][j - 1] == b;
      }
    }
  }

  lemma AlternationLongestFirst(lookup: VersionLookup)
    ensures NonIncreasingLength(Alternation(lookup))
  {
    SortBySorted(Keys(lookup), NegLength);
  }

  /** One step of the scan: a match at i and the scan after it, or the
      scan from the next position. */
  lemma MatchesStep(s: string, i: nat, alts: seq<string>)
    requires i < |s|
    requires NonIncreasingLength(alts)
    ensures MatchAt(s, i, alts).Some? ==>
      Matches(s, i, alts) == [(i, MatchAt(s, i, alts).value)] + Matches(s, Resume(i, MatchAt(s, i, alts).value), alts)
    ensures MatchAt(s, i, alts).None? ==> Matches(s, i, alts) == Matches(s, i + 1, alts)
  {
  }

  /** `findall` scans left to right: the matches come at increasing
      positions and do not overlap. */
  lemma {:induction false} MatchesDisjoint(s: string, i: nat, alts: seq<string>)
    requires i <= |s|
    requires NonIncreasingLength(alts)
    ensures InOrder(Matches(s, i, alts))
    decreases |s| - i
  {
    if i < |s| {
      MatchesStep(s, i, alts);
      var m := MatchAt(s, i, alts);
      if m.Some? {
        var j := Resume(i, m.value);
        MatchesDisjoint(s, j, alts);
        InOrderCons((i, m.value), Matches(s, j, alts), j);
      } else {
        MatchesDisjoint(s, i + 1, alts);
      }
    } else {
      assert |Matches(s, i, alts)| <= 1;
    }
  }

  /** Matches at strictly increasing positions, each ending before the next
      begins. */
  predicate InOrder(ms: seq<(nat, string)>)
  {
    forall k :: 0 <= k < |ms| - 1 ==> ms[k].0 < ms[k + 1].0 && ms[k].0 + |ms[k].1| <= ms[k + 1].0
  }

  /** A match that ends, and starts, before position j comes in order in
      front of matches in order from j on. */
  lemma InOrderCons(m: (nat, string), ms: seq<(nat, string)>, j: nat)
    requires InOrder(ms) && forall k :: 0 <= k < |ms| ==> j <= ms[k].0
    requires m.0 < j && m.0 + |m.1| <= j
    ensures InOrder([m] + ms)
  {
    var all := [m] + ms;
    forall k | 0 <= k < |all| - 1
      ensures all[k].0 < all[k + 1].0 && all[k].0 + |all[k].1| <= all[k + 1].0
    {
      assert all[k + 1] == ms[k];
      if k > 0 {
        assert all[k] == ms[k - 1];
      }
    }
  }

  /** Each match is the longest name occurring at its position. */
  lemma MatchesLongest(s: string, i: nat, alts: seq<string>)
    requires i <= |s|
    requires NonIncreasingLength(alts)
    ensures forall k :: 0 <= k < |Matches(s, i, alts)| ==>
      Longest(s, Matches(s, i, alts)[k].0, alts, Matches(s, i, alts)[k].1)
  {
    var ms := Matches(s, i, alts);
    MatchesOccur(s, i, alts);
    forall k | 0 <= k < |ms|
      ensures Longest(s, ms[k].0, alts, ms[k].1)
    {
      assert MatchAt(s, ms[k].0, alts) == Some(ms[k].1);
      MatchAtLongest(s, ms[k].0, alts);
    }
  }

  /** No non-empty name of `alts` occurs at position p. */
  predicate NoNameAt(s: string, p: nat, alts: seq<string>)
  {
    forall b :: b in alts && b != [] ==> !OccursAt(s, p, b)
  }

  /** A position no match covers is outside the first match and is covered
      by none of the rest. */
  lemma NotCoveredSplit(ms: seq<(nat, string)>, p: nat)
    requires ms != [] && !Covered(ms, p)
    ensures !(ms[0].0 <= p < ms[0].0 + |ms[0].1|) && !Covered(ms[1..], p)
  {
  }

  /** After a match of a at i, the positions left uncovered are those from
      where the scan resumes that the later matches leave uncovered, and i
      itself when a is empty. */
  lemma CompleteCons(s: string, i: nat, a: string, tail: seq<(nat, string)>, alts: seq<string>)
    requires a == [] ==> NoNameAt(s, i, alts)
    requires forall p :: Resume(i, a) <= p < |s| && !Covered(tail, p) ==> NoNameAt(s, p, alts)
    ensures forall p :: i <= p < |s| && !Covered([(i, a)] + tail, p) ==> NoNameAt(s, p, alts)
  {
    var ms := [(i, a)] + tail;
    assert ms[1..] == tail;
    forall p | i <= p < |s| && !Covered(ms, p)
      ensures NoNameAt(s, p, alts)
    {
      NotCoveredSplit(ms, p);
    }
  }

  /** No non-empty name occurs at a position the matches leave uncovered. */
  lemma {:induction false} MatchesComplete(s: string, i: nat, alts: seq<string>)
    requires i <= |s|
    requires NonIncreasingLength(alts)
    ensures forall p :: i <= p < |s| && !Covered(Matches(s, i, alts), p) ==> NoNameAt(s, p, alts)
    decreases |s| - i
  {
    if i < |s| {
      MatchesStep(s, i, alts);
      MatchAtLongest(s, i, alts);
      var m := MatchAt(s, i, alts);
      if m.Some? {
        var j := Resume(i, m.value);
        MatchesComplete(s, j, alts);
        assert m.value == [] ==> NoNameAt(s, i, alts);
        CompleteCons(s, i, m.value, Matches(s, j, alts), alts);
      } else {
        MatchesComplete(s, i + 1, alts);
      }
    }
  }

  /** With an empty identifier among the names, the scan yields the empty
      string at every position no match covers, the end of the string
      included. */
  lemma {:induction false} MatchesEmptyFill(s: string, i: nat, alts: seq<string>)
    requires i <= |s|
    requires NonIncreasingLength(alts) && [] in alts
    ensures forall p :: i <= p <= |s| && !Covered(Matches(s, i, alts), p) ==> (p, []) in Matches(s, i, alts)
    decreases |s| - i
  {
    var ms := Matches(s, i, alts);
    var m := MatchAt(s, i, alts);
    assert OccursAt(s, i, []);
    if i < |s| {
      MatchesStep(s, i, alts);
      var j := Resume(i, m.value);
      MatchesEmptyFill(s, j, alts);
      assert ms[1..] == Matches(s, j, alts);
      forall p | i <= p <= |s| && !Covered(ms, p)
        ensures (p, []) in ms
      {
        NotCoveredSplit(ms, p);
        if p < j {
          assert ms[0] == (i, m.value);
          assert m.value == [] && p == i;
        } else {
          assert (p, []) in ms[1..];
        }
      }
    } else {
      assert m.value == [];
    }
  }

  /** Each match is the first alternative occurring at its position. */
  lemma {:induction false} MatchesOccur(s: string, i: nat, alts: seq<string>)
    requires i <= |s|
    requires NonIncreasingLength(alts)
    ensures forall k :: 0 <= k < |Matches(s, i, alts)| ==>
      MatchAt(s, Matches(s, i, alts)[k].0, alts) == Some(Matches(s, i, alts)[k].1) &&
      OccursAt(s, Matches(s, i, alts)[k].0, Matches(s, i, alts)[k].1)
    decreases |s| - i
  {
    if i < |s| {
      MatchesStep(s, i, alts);
      var m := MatchAt(s, i, alts);
      if m.Some? {
        MatchesOccur(s, Resume(i, m.value), alts);
        var ms := Matches(s, i, alts);
        var tail := Matches(s, Resume(i, m.value), alts);
        forall k | 0 < k < |ms|
          ensures MatchAt(s, ms[k].0, alts) == Some(ms[k].1)
        {
          assert ms[k] == tail[k - 1];
        }
      } else {
        MatchesOccur(s, i + 1, alts);
      }
    }
  }

  /** Position p lies inside one of the matches. */
  predicate Covered(ms: seq<(nat, string)>, p: nat)
  {
    exists k :: 0 <= k < |ms| && ms[k].0 <= p < ms[k].0 + |ms[k].1|
  }

  /** A longer name wins over a shorter one it ends with: the directory
      `FireRed` names the version `firered`, not `red`. */
  lemma FindVersionsExample()
    ensures FindVersions("FireRed", [("red", 1), ("firered", 10)]) == ["firered"]
  {
    AlternationExample();
    LowerExample();
    MatchesExample();
  }

  lemma AlternationExample()
    ensures Alternation([("red", 1), ("firered", 10)]) == ["firered", "red"]
  {
    var ks := Keys([("red", 1), ("firered", 10)]);
    assert ks == ["red", "firered"];
    assert ks[..1] == ["red"];
    assert SortBy(ks[..1], NegLength) == ["red"];
  }

  lemma LowerExample()
    ensures Lower("FireRed") == "firered"
  {
  }

  lemma MatchesExample()
    ensures Matches("firered", 0, ["firered", "red"]) == [(0, "firered")]
  {
    var s := "firered";
    var alts := ["firered", "red"];
    assert MatchAt(s, 0, alts) == Some("firered") by {
      assert s[0..7] == "firered";
    }
    MatchesStep(s, 0, alts);
    assert MatchAt(s, 7, alts) == None;
  }

  /** An empty identifier matches wherever no other name does, and at the
      end: the directory `xy` yields `x` and the empty name twice, so each of
      its files gets two extra rows for the empty name's id. */
  lemma FindVersionsEmptyIdentifierExample()
    ensures FindVersions("xy", [("x", 1), ("", 2)]) == ["x", "", ""]
    ensures Keys([("x", 1), ("", 2)]) == ["x", ""]
    ensures VersionIds([("x", 1), ("", 2)], ["x", "", ""]) == [1, 2, 2]
  {
    EmptyIdentifierAlternation();
    assert Lower("xy") == "xy";
    EmptyIdentifierMatches();
    assert Names([(0, "x"), (1, ""), (2, "")]) == ["x", "", ""];
    EmptyIdentifierIds();
  }

  lemma EmptyIdentifierIds()
    ensures Keys([("x", 1), ("", 2)]) == ["x", ""]
    ensures VersionIds([("x", 1), ("", 2)], ["x", "", ""]) == [1, 2, 2]
  {
    var lookup := [("x", 1), ("", 2)];
    assert Keys(lookup) == ["x", ""];
    assert Lookup(lookup, "x") == 1;
    assert Lookup(lookup, "") == 2 by {
      assert lookup[1..] == [("", 2)];
    }
  }

  lemma EmptyIdentifierAlternation()
    ensures Alternation([("x", 1), ("", 2)]) == ["x", ""]
  {
    var ks := Keys([("x", 1), ("", 2)]);
    assert ks == ["x", ""];
    assert ks[..1] == ["x"];
    assert SortBy(ks[..1], NegLength) == ["x"];
  }

  lemma EmptyIdentifierMatchAt()
    ensures MatchAt("xy", 0, ["x", ""]) == Some("x")
    ensures MatchAt("xy", 1, ["x", ""]) == Some("")
    ensures MatchAt("xy", 2, ["x", ""]) == Some("")
  {
    var s := "xy";
    var alts := ["x", ""];
    assert s[0..1] == "x";
    assert s[1..2] == "y";
    assert alts[1..] == [""];
  }

  lemma EmptyIdentifierMatches()
    ensures Matches("xy", 0, ["x", ""]) == [(0, "x"), (1, ""), (2, "")]
  {
    var s := "xy";
    var alts := ["x", ""];
    EmptyIdentifierMatchAt();
    assert Matches(s, 2, alts) == [(2, "")];
    assert Matches(s, 1, alts) == [(1, "")] + Matches(s, 2, alts);
  }
}
