/** `class_list_from_file` of aes/utils/metacode.py once the file has been
    read: `re.findall(r"(?<=\bclass\s)(\w+)", text)`, the names written
    after the keyword `class`, found by a purely textual scan. */
module Metacode {
  import opened Text

  /** The look-behind `(?<=\bclass\s)` at position `p`: the five letters of
      "class" and one whitespace character end at `p`, and a word boundary
      comes before the "c". */
  predicate Behind(text: string, p: nat)
  {
    && 6 <= p <= |text|
    && KeywordAt(text, p - 6) && IsSpace(text[p - 1])
    && (p == 6 || !IsWordChar(text[p - 7]))
  }

  /** The five letters of "class" start at `q`. */
  predicate KeywordAt(text: string, q: nat)
  {
    && q + 5 <= |text|
    && text[q] == 'c' && text[q + 1] == 'l' && text[q + 2] == 'a'
    && text[q + 3] == 's' && text[q + 4] == 's'
  }

  /** The pattern matches at `p`: the look-behind holds and `\w+` takes at
      least one character. */
  predicate MatchAt(text: string, p: nat)
  {
    Behind(text, p) && p < |text| && IsWordChar(text[p])
  }

  /** How many word characters `\w+` takes from `p`, greedily. */
  function RunLength(text: string, p: nat): (n: nat)
    requires p <= |text|
    ensures p + n <= |text|
    ensures forall q :: p <= q < p + n ==> IsWordChar(text[q])
    ensures p + n == |text| || !IsWordChar(text[p + n])
    decreases |text| - p
  {
    if p < |text| && IsWordChar(text[p]) then 1 + RunLength(text, p + 1) else 0
  }

  function Run(text: string, p: nat): string
    requires p <= |text|
  {
    text[p..p + RunLength(text, p)]
  }

  /** `findall` from position `i` on: try each position in turn, and after a
      match go on where it ended. */
  function Scan(text: string, i: nat): (names: seq<string>)
    requires i <= |text|
    decreases |text| - i
  {
    if i == |text| then []
    else if MatchAt(text, i) then [Run(text, i)] + Scan(text, i + RunLength(text, i))
    else Scan(text, i + 1)
  }

  /** `class_list_from_file` on the text of the file. */
  function ClassList(text: string): seq<string>
  {
    Scan(text, 0)
  }

  /** The positions from `i` on where the pattern matches, in increasing
      order. */
  function Positions(text: string, i: nat): (ps: seq<nat>)
    requires i <= |text|
    ensures forall k :: 0 <= k < |ps| ==> i <= ps[k] < |text|
    decreases |text| - i
  {
    if i == |text| then []
    else if MatchAt(text, i) then [i] + Positions(text, i + 1)
    else Positions(text, i + 1)
  }

  function RunsAt(text: string, ps: seq<nat>): (names: seq<string>)
    requires forall k :: 0 <= k < |ps| ==> ps[k] <= |text|
    ensures |names| == |ps|
  {
    if ps == [] then [] else [Run(text, ps[0])] + RunsAt(text, ps[1..])
  }

  /** Inside a run of word characters no match can start: the character
      before is not whitespace. */
  lemma {:induction false} SkipRun(text: string, a: nat, b: nat)
    requires a <= b <= |text|
    requires 1 <= a
    requires forall q :: a - 1 <= q < b - 1 ==> IsWordChar(text[q])
    ensures Positions(text, a) == Positions(text, b)
    decreases b - a
  {
    if a < b {
      assert IsWordChar(text[a - 1]);
      assert !MatchAt(text, a);
      SkipRun(text, a + 1, b);
    }
  }

  /** After a match the next candidate is where its run ends. */
  lemma PositionsAfterMatch(text: string, i: nat)
    requires i <= |text| && MatchAt(text, i)
    ensures Positions(text, i) == [i] + Positions(text, i + RunLength(text, i))
  {
    var n := RunLength(text, i);
    assert n == 1 + RunLength(text, i + 1);
    SkipRun(text, i + 1, i + n);
  }

  lemma ScanAtMatch(text: string, i: nat)
    requires i < |text| && MatchAt(text, i)
    ensures Scan(text, i) == [Run(text, i)] + Scan(text, i + RunLength(text, i))
  {
  }

  lemma RunsAtCons(text: string, p: nat, ps: seq<nat>)
    requires p <= |text|
    requires forall k :: 0 <= k < |ps| ==> ps[k] <= |text|
    ensures RunsAt(text, [p] + ps) == [Run(text, p)] + RunsAt(text, ps)
  {
    assert ([p] + ps)[1..] == ps;
  }

  /** Where the scan goes on from `i`: after the run at a match, else at
      the next position. */
  function Next(text: string, i: nat): (j: nat)
    requires i < |text|
    ensures i < j <= |text|
  {
    if MatchAt(text, i) then i + RunLength(text, i) else i + 1
  }

  /** One step of the scan, given the result from where it goes on. */
  lemma ScanStep(text: string, i: nat)
    requires i < |text|
    requires Scan(text, Next(text, i)) == RunsAt(text, Positions(text, Next(text, i)))
    ensures Scan(text, i) == RunsAt(text, Positions(text, i))
  {
    if MatchAt(text, i) {
      ScanMatchStep(text, i);
    } else {
      ScanSkipStep(text, i);
    }
  }

  lemma ScanMatchStep(text: string, i: nat)
    requires i < |text| && MatchAt(text, i)
    requires var j := i + RunLength(text, i); Scan(text, j) == RunsAt(text, Positions(text, j))
    ensures Scan(text, i) == RunsAt(text, Positions(text, i))
  {
    var ps := Positions(text, i + RunLength(text, i));
    PositionsAfterMatch(text, i);
    RunsAtCons(text, i, ps);
    ScanAtMatch(text, i);
  }

  lemma ScanSkipStep(text: string, i: nat)
    requires i < |text| && !MatchAt(text, i)
    requires Scan(text, i + 1) == RunsAt(text, Positions(text, i + 1))
    ensures Scan(text, i) == RunsAt(text, Positions(text, i))
  {
  }

  /** The scan finds exactly the match positions, and returns the run of
      word characters at each. */
  lemma {:induction false} ScanFindsEveryMatch(text: string, i: nat)
    requires i <= |text|
    ensures Scan(text, i) == RunsAt(text, Positions(text, i))
    decreases |text| - i
  {
    if i < |text| {
      ScanFindsEveryMatch(text, Next(text, i));
      ScanStep(text, i);
    }
  }

  /** The positions listed are exactly the match positions. */
  lemma {:induction false} PositionsExact(text: string, i: nat)
    requires i <= |text|
    ensures forall q :: i <= q < |text| ==> (MatchAt(text, q) <==> q in Positions(text, i))
    decreases |text| - i
  {
    if i < |text| {
      PositionsExact(text, i + 1);
    }
  }

  predicate Increasing(ps: seq<nat>)
  {
    forall k, l :: 0 <= k < l < |ps| ==> ps[k] < ps[l]
  }

  /** ... in increasing order. */
  lemma {:induction false} PositionsIncreasing(text: string, i: nat)
    requires i <= |text|
    ensures Increasing(Positions(text, i))
    decreases |text| - i
  {
    if i < |text| {
      PositionsIncreasing(text, i + 1);
      var rest := Positions(text, i + 1);
      if MatchAt(text, i) {
        var ps := [i] + rest;
        assert Positions(text, i) == ps;
        forall k, l | 0 <= k < l < |ps| ensures ps[k] < ps[l] {
          assert ps[l] == rest[l - 1] && i + 1 <= rest[l - 1];
          if k > 0 {
            assert ps[k] == rest[k - 1];
          }
        }
      } else {
        assert Positions(text, i) == rest;
      }
    }
  }

  lemma {:induction false} RunsAtIndex(text: string, ps: seq<nat>, k: nat)
    requires forall j :: 0 <= j < |ps| ==> ps[j] <= |text|
    requires k < |ps|
    ensures RunsAt(text, ps)[k] == Run(text, ps[k])
  {
    if k > 0 {
      RunsAtIndex(text, ps[1..], k - 1);
    }
  }

  /** The name found at a match: a non-empty run of word characters that
      stops at the end of the text or before a character that is not one. */
  lemma RunIsMaximal(text: string, p: nat)
    requires MatchAt(text, p)
    ensures var name := Run(text, p);
      && name != [] && p + |name| <= |text| && name == text[p..p + |name|]
      && (forall j :: 0 <= j < |name| ==> IsWordChar(name[j]))
      && (p + |name| == |text| || !IsWordChar(text[p + |name|]))
  {
  }

  /** The names are the runs of word characters at every position that
      follows "class", at a word boundary, and one whitespace character,
      in order of appearance. */
  lemma ClassListCharacterised(text: string)
    ensures var names, ps := ClassList(text), Positions(text, 0);
      && |names| == |ps|
      && (forall q :: 0 <= q < |text| ==> (MatchAt(text, q) <==> q in ps))
      && Increasing(ps)
      && (forall k :: 0 <= k < |ps| ==> names[k] == Run(text, ps[k]))
  {
    var names, ps := ClassList(text), Positions(text, 0);
    ScanFindsEveryMatch(text, 0);
    PositionsExact(text, 0);
    PositionsIncreasing(text, 0);
    forall k | 0 <= k < |ps| ensures names[k] == Run(text, ps[k]) {
      RunsAtIndex(text, ps, k);
    }
  }

  /** "class" must start at a word boundary: a word character just before
      it (as in "subclass X" or "_class X") rules the match out. */
  lemma BoundaryRequired(text: string, p: nat)
    requires 7 <= p <= |text| && IsWordChar(text[p - 7])
    ensures !MatchAt(text, p)
  {
  }

  /** Exactly one whitespace character: two (as in "class  X") rule the
      match out, since the look-behind then ends in "lass ". */
  lemma OneSpaceOnly(text: string, p: nat)
    requires 2 <= p <= |text| && IsSpace(text[p - 2])
    ensures !MatchAt(text, p)
  {
  }

  lemma {:induction false} NoMatchNoNames(text: string, i: nat)
    requires i <= |text|
    requires forall q :: i <= q < |text| ==> !MatchAt(text, q)
    ensures Scan(text, i) == []
    decreases |text| - i
  {
    if i < |text| {
      NoMatchNoNames(text, i + 1);
    }
  }

  lemma SubclassNotListed()
    ensures ClassList("subclass X") == []
  {
    var text := "subclass X";
    forall q | 0 <= q < |text| ensures !MatchAt(text, q) {
      if q == 9 {
        BoundaryRequired(text, q);
      } else if q >= 6 {
        assert !IsSpace(text[q - 1]);
      }
    }
    NoMatchNoNames(text, 0);
  }

  lemma UnderscoreClassNotListed()
    ensures ClassList("_class X") == []
  {
    var text := "_class X";
    forall q | 0 <= q < |text| ensures !MatchAt(text, q) {
      if q == 7 {
        BoundaryRequired(text, q);
      } else if q == 6 {
        assert !IsSpace(text[q - 1]);
      }
    }
    NoMatchNoNames(text, 0);
  }

  lemma TwoSpacesNotListed()
    ensures ClassList("class  X") == []
  {
    var text := "class  X";
    forall q | 0 <= q < |text| ensures !MatchAt(text, q) {
      if q == 7 {
        OneSpaceOnly(text, q);
      }
    }
    NoMatchNoNames(text, 0);
  }

  /** The scan is textual: a class line inside a comment is listed too. */
  lemma CommentListed()
    ensures ClassList("# class A") == ["A"]
  {
    var text := "# class A";
    assert MatchAt(text, 8);
    assert RunLength(text, 8) == 1;
    forall q | 0 <= q < 8 ensures !MatchAt(text, q) {
      if q >= 6 {
        assert !IsSpace(text[q - 1]);
      }
    }
    NoMatchNoNames(text, 9);
    assert Run(text, 8) == "A";
    assert Scan(text, 8) == ["A"];
    SkipToMatch(text, 0, 8);
  }

  /** Positions without a match are passed over one by one. */
  lemma {:induction false} SkipToMatch(text: string, i: nat, p: nat)
    requires i <= p <= |text|
    requires forall q :: i <= q < p ==> !MatchAt(text, q)
    ensures Scan(text, i) == Scan(text, p)
    decreases p - i
  {
    if i < p {
      SkipToMatch(text, i + 1, p);
    }
  }
}
