/** The symbol tables of aes/data (`specials` and `punctuation`): each entry
    names a symbol and gives the regular expression that `re.findall`
    counts it with. The patterns use a small part of Python's regular
    expressions, compiled here by `Parse`; `MatchCount` is the number of
    matches `re.findall` returns. */
module Symbols {
  import opened Wrappers
  import opened Text

  /** One element of a compiled pattern. */
  datatype Atom =
    | Lit(c: char)   // one given character
    | AnyChar        // `.`: any character except a newline
    | StartAnchor    // `^`: the empty string at the start of the text

  type Pattern = seq<Atom>

  /** Characters with a meaning of their own in a Python regular expression. */
  predicate IsMeta(c: char)
  {
    c in ".^$*+?{}[]\\|()"
  }

  /** Compiles the part of the regular-expression syntax the tables use:
      plain characters, `\` before a character that is not a letter or digit,
      `.` and `^`. Anything outside that part gives None. */
  function Parse(src: string): (p: Option<Pattern>)
    ensures p.Some? ==> |p.value| <= |src|
  {
    if src == [] then Some([])
    else if src[0] == '\\' then
      if |src| < 2 || IsAlpha(src[1]) || IsDigit(src[1]) then None
      else Prepend(Lit(src[1]), Parse(src[2..]))
    else if src[0] == '.' then Prepend(AnyChar, Parse(src[1..]))
    else if src[0] == '^' then Prepend(StartAnchor, Parse(src[1..]))
    else if IsMeta(src[0]) then None
    else Prepend(Lit(src[0]), Parse(src[1..]))
  }

  function Prepend(a: Atom, rest: Option<Pattern>): (p: Option<Pattern>)
    ensures p.Some? <==> rest.Some?
    ensures p.Some? ==> p.value == [a] + rest.value
  {
    match rest
    case None => None
    case Some(q) => Some([a] + q)
  }

  /** Whether `p` matches the text starting at position `i`. */
  predicate MatchesAt(p: Pattern, s: string, i: nat)
    decreases |p|
  {
    if p == [] then true
    else match p[0]
      case StartAnchor => i == 0 && MatchesAt(p[1..], s, i)
      case Lit(c) => i < |s| && s[i] == c && MatchesAt(p[1..], s, i + 1)
      case AnyChar => i < |s| && s[i] != '\n' && MatchesAt(p[1..], s, i + 1)
  }

  /** The number of characters a match of `p` consumes. */
  function Width(p: Pattern): nat
  {
    if p == [] then 0 else (if p[0] == StartAnchor then 0 else 1) + Width(p[1..])
  }

  /** The scan of `re.findall` from position `i`: a match is counted and the
      scan resumes after it (one position further after an empty match);
      otherwise the scan moves on by one position. */
  function MatchesFrom(p: Pattern, s: string, i: nat): nat
    decreases if i <= |s| then |s| + 1 - i else 0
  {
    if i > |s| then 0
    else if MatchesAt(p, s, i) then 1 + MatchesFrom(p, s, i + (if Width(p) == 0 then 1 else Width(p)))
    else MatchesFrom(p, s, i + 1)
  }

  /** `len(re.findall(p, s))`. */
  function MatchCount(p: Pattern, s: string): nat
  {
    MatchesFrom(p, s, 0)
  }

  lemma LiteralFacts(c: char, s: string, i: nat)
    ensures Width([Lit(c)]) == 1
    ensures MatchesAt([Lit(c)], s, i) <==> i < |s| && s[i] == c
  {
    assert [Lit(c)][1..] == [];
  }

  /** A one-character literal pattern counts the occurrences of that character. */
  lemma {:induction false} LiteralMatches(c: char, s: string, i: nat)
    requires i <= |s|
    ensures MatchesFrom([Lit(c)], s, i) == Count(s[i..], c)
    decreases |s| - i
  {
    LiteralFacts(c, s, i);
    if i < |s| {
      LiteralMatches(c, s, i + 1);
      assert s[i..][0] == s[i] && s[i..][1..] == s[i + 1..];
    } else {
      assert s[i..] == [];
    }
  }

  lemma LiteralCount(c: char, s: string)
    ensures MatchCount([Lit(c)], s) == Count(s, c)
  {
    LiteralMatches(c, s, 0);
    assert s[0..] == s;
  }

  lemma {:induction false} AnchorMatchesNothingLater(s: string, i: nat)
    requires 0 < i
    ensures MatchesFrom([StartAnchor], s, i) == 0
    decreases if i <= |s| then |s| + 1 - i else 0
  {
    assert [StartAnchor][1..] == [];
    if i <= |s| {
      AnchorMatchesNothingLater(s, i + 1);
    }
  }

  /** `re.findall("^", s)` finds exactly one (empty) match, whatever `s` holds. */
  lemma AnchorCount(s: string)
    ensures MatchCount([StartAnchor], s) == 1
  {
    assert [StartAnchor][1..] == [];
    AnchorMatchesNothingLater(s, 1);
  }

  const ThreeAny: Pattern := [AnyChar, AnyChar, AnyChar]

  lemma ThreeAnyFacts(s: string, i: nat)
    ensures Width(ThreeAny) == 3
    ensures MatchesAt(ThreeAny, s, i) <==> i + 3 <= |s| && s[i] != '\n' && s[i + 1] != '\n' && s[i + 2] != '\n'
  {
    assert ThreeAny[1..] == [AnyChar, AnyChar];
    assert ThreeAny[1..][1..] == [AnyChar];
    assert [AnyChar][1..] == [];
  }

  /** The sum of `len(line) // 3` over the given lines. */
  function SumThirds(lines: seq<string>): nat
  {
    if lines == [] then 0 else |lines[0]| / 3 + SumThirds(lines[1..])
  }

  lemma SumThirdsStepMatch(s: string, i: nat)
    requires i + 3 <= |s| && s[i] != '\n' && s[i + 1] != '\n' && s[i + 2] != '\n'
    ensures SumThirds(Split(s[i..], '\n')) == 1 + SumThirds(Split(s[i + 3..], '\n'))
  {
    var t := s[i..];
    assert t == s[i..i + 3] + s[i + 3..];
    assert '\n' !in s[i..i + 3] by {
      assert s[i..i + 3] == [s[i], s[i + 1], s[i + 2]];
    }
    SplitAfterPrefix(s[i..i + 3], s[i + 3..], '\n');
    var rest := Split(s[i + 3..], '\n');
    var pieces := Split(t, '\n');
    assert pieces == [s[i..i + 3] + rest[0]] + rest[1..];
    assert pieces[1..] == rest[1..];
    assert |pieces[0]| / 3 == 1 + |rest[0]| / 3;
  }

  lemma SumThirdsStepNewline(s: string, i: nat)
    requires i < |s| && s[i] == '\n'
    ensures SumThirds(Split(s[i..], '\n')) == SumThirds(Split(s[i + 1..], '\n'))
  {
    var t := s[i..];
    assert t[0] == '\n' && t[1..] == s[i + 1..];
    assert Split(t, '\n') == [[]] + Split(s[i + 1..], '\n');
    assert (Split(t, '\n'))[1..] == Split(s[i + 1..], '\n');
  }

  lemma SumThirdsStepShort(s: string, i: nat)
    requires i < |s| && s[i] != '\n'
    requires !(i + 3 <= |s| && s[i + 1] != '\n' && s[i + 2] != '\n')
    ensures SumThirds(Split(s[i..], '\n')) == SumThirds(Split(s[i + 1..], '\n'))
  {
    var t := s[i..];
    assert t[0] == s[i] && t[1..] == s[i + 1..];
    var rest := Split(s[i + 1..], '\n');
    FirstPieceIsPrefix(s[i + 1..], '\n');
    assert |rest[0]| < 2;
    var pieces := Split(t, '\n');
    assert pieces == [[s[i]] + rest[0]] + rest[1..];
    assert pieces[1..] == rest[1..];
  }

  lemma {:induction false} ThreeAnyMatches(s: string, i: nat)
    requires i <= |s|
    ensures MatchesFrom(ThreeAny, s, i) == SumThirds(Split(s[i..], '\n'))
    decreases |s| - i
  {
    ThreeAnyFacts(s, i);
    if i == |s| {
      assert s[i..] == [];
    } else if MatchesAt(ThreeAny, s, i) {
      ThreeAnyMatches(s, i + 3);
      SumThirdsStepMatch(s, i);
    } else if s[i] == '\n' {
      ThreeAnyMatches(s, i + 1);
      SumThirdsStepNewline(s, i);
    } else {
      ThreeAnyMatches(s, i + 1);
      SumThirdsStepShort(s, i);
    }
  }

  /** `re.findall("...", s)` counts, in every newline-free stretch of `s`,
      one match per three characters, whatever the characters are. */
  lemma ThreeAnyCount(s: string)
    ensures MatchCount(ThreeAny, s) == SumThirds(Split(s, '\n'))
  {
    ThreeAnyMatches(s, 0);
    assert s[0..] == s;
  }

  /** A named table entry: the symbol's name and its pattern's source text. */
  datatype Entry = Entry(name: string, source: string)

  /** Pairs up names and pattern sources, in order. */
  function Table(names: seq<string>, sources: seq<string>): (table: seq<Entry>)
    requires |names| == |sources|
    ensures |table| == |names|
    ensures forall i :: 0 <= i < |table| ==> table[i] == Entry(names[i], sources[i])
  {
    seq(|names|, i requires 0 <= i < |names| => Entry(names[i], sources[i]))
  }

  const SpecialNames: seq<string> := [
    "tilde",
    "accent_grave",
    "ampersat",
    "hash",
    "dollar",
    "percent",
    "caret",
    "ampersand",
    "asterisk",
    "underscore",
    "plus",
    "equal",
    "pipe",
    "backslash",
    "less_than",
    "greater_than",
    "forward_slash"
  ]

  const SpecialSources: seq<string> := [
    "~",
    "`",
    "@",
    "#",
    "\\$",
    "%",
    "^",
    "&",
    "\\*",
    "_",
    "\\+",
    "=",
    "\\|",
    "\\\\",
    "<",
    ">",
    "/"
  ]

  /** The `specials` dictionary, in insertion order. */
  const Specials: seq<Entry> := Table(SpecialNames, SpecialSources)

  const PunctuationNames: seq<string> := [
    "exclamation point",
    "question mark",
    "period",
    "comma",
    "semicolon",
    "colon",
    "hypen",
    "open parenthesis",
    "close parenthesis",
    "open brace",
    "close brace",
    "open bracket",
    "close bracket",
    "quotation mark",
    "apostrophe",
    "elipses"
  ]

  const PunctuationSources: seq<string> := [
    "!",
    "\\?",
    "\\.",
    ",",
    ";",
    ":",
    "-",
    "\\(",
    "\\)",
    "\\{",
    "\\}",
    "\\[",
    "\\]",
    "\"",
    "'",
    "..."
  ]

  /** The `punctuation` dictionary, in insertion order. */
  const Punctuation: seq<Entry> := Table(PunctuationNames, PunctuationSources)

  /** The symbol each `specials` entry is named after, in table order. */
  const SpecialSymbols: string := "~`@#$%^&*_+=|\\<>/"

  /** The symbol each `punctuation` entry except "elipses" is named after. */
  const PunctuationSymbols: string := "!?.,;:-(){}[]\"'"

  const CaretIndex := 6
  const EllipsisIndex := 15

  function Names(table: seq<Entry>): seq<string>
  {
    seq(|table|, i requires 0 <= i < |table| => table[i].name)
  }

  /** A table every pattern of which compiles, with no name twice (a Python
      dictionary's keys). */
  predicate WellFormed(table: seq<Entry>)
  {
    && Distinct(Names(table))
    && forall i :: 0 <= i < |table| ==> Parse(table[i].source).Some?
  }

  /** `len(re.findall(e.source, s))`; a source outside the compiled subset
      counts nothing (every entry of the tables compiles: `TablesWellFormed`). */
  function EntryCount(e: Entry, s: string): nat
  {
    match Parse(e.source)
    case Some(p) => MatchCount(p, s)
    case None => 0
  }

  /** The entry of `table` named `name`, if any. */
  function Lookup(table: seq<Entry>, name: string): (r: Option<Entry>)
    ensures r.Some? ==> r.value in table && r.value.name == name
    ensures r.None? ==> forall i :: 0 <= i < |table| ==> table[i].name != name
  {
    if table == [] then None
    else if table[0].name == name then Some(table[0])
    else Lookup(table[1..], name)
  }

  /** The sum, over the table, of each pattern's match count in `s`. */
  function TableTotal(table: seq<Entry>, s: string): nat
  {
    if table == [] then 0 else EntryCount(table[0], s) + TableTotal(table[1..], s)
  }

  lemma {:induction false} TableTotalConcat(a: seq<Entry>, b: seq<Entry>, s: string)
    ensures TableTotal(a + b, s) == TableTotal(a, s) + TableTotal(b, s)
  {
    if a != [] {
      assert (a + b)[0] == a[0] && (a + b)[1..] == a[1..] + b;
      TableTotalConcat(a[1..], b, s);
    } else {
      assert a + b == b;
    }
  }

  /** `src` is the pattern of the single character `c`: the character
      itself when it has no meaning of its own, otherwise `\` before it. */
  predicate LiteralSource(src: string, c: char)
  {
    || (src == [c] && !IsMeta(c))
    || (|src| == 2 && src[0] == '\\' && src[1] == c && !IsAlpha(c) && !IsDigit(c))
  }

  lemma ParsesLiteral(src: string, c: char)
    requires LiteralSource(src, c)
    ensures Parse(src) == Some([Lit(c)])
  {
    if src == [c] && !IsMeta(c) {
      assert src[1..] == [];
      assert Parse(src[1..]) == Some([]);
      assert [Lit(c)] + [] == [Lit(c)];
    } else {
      assert src[2..] == [];
      assert Parse(src[2..]) == Some([]);
      assert Parse(src) == Prepend(Lit(c), Parse(src[2..]));
      assert [Lit(c)] + [] == [Lit(c)];
    }
  }

  lemma SpecialSourcesAreLiteral()
    ensures |SpecialSources| == 17 == |SpecialSymbols|
    ensures forall i :: 0 <= i < 17 && i != CaretIndex ==> LiteralSource(SpecialSources[i], SpecialSymbols[i])
  {
    forall i | 0 <= i < 17 && i != CaretIndex
      ensures LiteralSource(SpecialSources[i], SpecialSymbols[i])
    {
      assert i == 0 || i == 1 || i == 2 || i == 3 || i == 4 || i == 5 || i == 7 || i == 8 || i == 9 || i == 10 || i == 11 || i == 12 || i == 13 || i == 14 || i == 15 || i == 16;
    }
  }

  lemma PunctuationSourcesAreLiteral()
    ensures |PunctuationSources| == 16 && |PunctuationSymbols| == 15
    ensures forall i :: 0 <= i < EllipsisIndex ==> LiteralSource(PunctuationSources[i], PunctuationSymbols[i])
  {
    forall i | 0 <= i < EllipsisIndex
      ensures LiteralSource(PunctuationSources[i], PunctuationSymbols[i])
    {
      assert i == 0 || i == 1 || i == 2 || i == 3 || i == 4 || i == 5 || i == 6 || i == 7 || i == 8 || i == 9 || i == 10 || i == 11 || i == 12 || i == 13 || i == 14;
    }
  }

  /** Every `specials` entry but "caret" matches exactly its own symbol;
      "caret" is the bare anchor `^`. */
  lemma SpecialsPatterns()
    ensures |Specials| == 17 == |SpecialSymbols|
    ensures Specials[CaretIndex].name == "caret" && Parse(Specials[CaretIndex].source) == Some([StartAnchor])
    ensures forall i :: 0 <= i < |Specials| && i != CaretIndex ==> Parse(Specials[i].source) == Some([Lit(SpecialSymbols[i])])
  {
    SpecialSourcesAreLiteral();
    assert Specials[CaretIndex] == Entry(SpecialNames[CaretIndex], SpecialSources[CaretIndex]);
    assert Specials[CaretIndex].source == "^";
    assert "^"[1..] == [];
    assert Parse("^") == Prepend(StartAnchor, Parse([]));
    assert [StartAnchor] + [] == [StartAnchor];
    forall i | 0 <= i < |Specials| && i != CaretIndex
      ensures Parse(Specials[i].source) == Some([Lit(SpecialSymbols[i])])
    {
      ParsesLiteral(SpecialSources[i], SpecialSymbols[i]);
    }
  }

  /** Every `punctuation` entry but "elipses" matches exactly its own symbol
      ("period" only '.', "question mark" only '?'); "elipses" is three `.`
      wildcards. */
  lemma PunctuationPatterns()
    ensures |Punctuation| == 16 && |PunctuationSymbols| == 15
    ensures Punctuation[EllipsisIndex].name == "elipses" && Parse(Punctuation[EllipsisIndex].source) == Some(ThreeAny)
    ensures forall i :: 0 <= i < EllipsisIndex ==> Parse(Punctuation[i].source) == Some([Lit(PunctuationSymbols[i])])
  {
    PunctuationSourcesAreLiteral();
    assert Punctuation[EllipsisIndex] == Entry(PunctuationNames[EllipsisIndex], PunctuationSources[EllipsisIndex]);
    var e := Punctuation[EllipsisIndex].source;
    assert e == "...";
    assert e[1..] == ".." && e[1..][1..] == "." && e[1..][1..][1..] == [];
    assert Parse(e[1..][1..]) == Some([AnyChar]) by {
      assert Parse(e[1..][1..]) == Prepend(AnyChar, Parse(e[1..][1..][1..]));
      assert [AnyChar] + [] == [AnyChar];
    }
    assert Parse(e[1..]) == Prepend(AnyChar, Parse(e[1..][1..]));
    assert [AnyChar] + [AnyChar] == [AnyChar, AnyChar];
    assert Parse(e) == Prepend(AnyChar, Parse(e[1..]));
    assert [AnyChar] + [AnyChar, AnyChar] == ThreeAny;
    forall i | 0 <= i < EllipsisIndex
      ensures Parse(Punctuation[i].source) == Some([Lit(PunctuationSymbols[i])])
    {
      ParsesLiteral(PunctuationSources[i], PunctuationSymbols[i]);
    }
  }

  /** No name occurs twice in either table. */
  lemma SpecialNamesDistinct()
    ensures Distinct(SpecialNames)
  {
  }

  lemma PunctuationNamesDistinct()
    ensures Distinct(PunctuationNames)
  {
  }

  lemma TablesWellFormed()
    ensures WellFormed(Specials) && WellFormed(Punctuation)
  {
    SpecialsPatterns();
    PunctuationPatterns();
    SpecialNamesDistinct();
    PunctuationNamesDistinct();
    assert Names(Specials) == SpecialNames;
    assert Names(Punctuation) == PunctuationNames;
  }

  /** No character is both a special symbol and a punctuation symbol. */
  lemma SymbolSetsDisjoint()
    ensures forall i, j :: 0 <= i < |SpecialSymbols| && 0 <= j < |PunctuationSymbols| ==> SpecialSymbols[i] != PunctuationSymbols[j]
  {
  }

  lemma SymbolsDistinct()
    ensures Distinct(SpecialSymbols) && Distinct(PunctuationSymbols)
  {
  }

  /** Looking a name up finds its first entry. */
  lemma {:induction false} LookupFinds(table: seq<Entry>, k: nat)
    requires k < |table|
    requires forall j :: 0 <= j < k ==> table[j].name != table[k].name
    ensures Lookup(table, table[k].name) == Some(table[k])
  {
    if k > 0 {
      LookupFinds(table[1..], k - 1);
    }
  }

  /** The entries `Commas` and `QuestionMarks` look up match ',' and '?'. */
  lemma CommaEntry()
    ensures Lookup(Punctuation, "comma") == Some(Entry("comma", ","))
    ensures Parse(",") == Some([Lit(',')])
  {
    assert Punctuation[3] == Entry("comma", ",");
    assert Punctuation[0].name == "exclamation point" && Punctuation[1].name == "question mark";
    assert Punctuation[2].name == "period";
    LookupFinds(Punctuation, 3);
    ParsesLiteral(",", ',');
  }

  lemma QuestionMarkEntry()
    ensures Lookup(Punctuation, "question mark") == Some(Entry("question mark", "\\?"))
    ensures Parse("\\?") == Some([Lit('?')])
  {
    assert Punctuation[1] == Entry("question mark", "\\?");
    assert Punctuation[0].name != "question mark";
    LookupFinds(Punctuation, 1);
    ParsesLiteral("\\?", '?');
  }

  /** The number of characters of `s` that are among `cs`. */
  function CountIn(s: string, cs: string): (n: nat)
    ensures n <= |s|
  {
    if s == [] then 0 else (if s[0] in cs then 1 else 0) + CountIn(s[1..], cs)
  }

  /** The sum, over the characters of `cs`, of their occurrences in `s`. */
  function SumCounts(s: string, cs: string): nat
  {
    if cs == [] then 0 else Count(s, cs[0]) + SumCounts(s, cs[1..])
  }

  lemma {:induction false} SumCountsConcat(s: string, a: string, b: string)
    ensures SumCounts(s, a + b) == SumCounts(s, a) + SumCounts(s, b)
  {
    if a == [] {
      assert a + b == b;
    } else {
      assert (a + b)[0] == a[0] && (a + b)[1..] == a[1..] + b;
      SumCountsConcat(s, a[1..], b);
    }
  }

  lemma {:induction false} SumCountsStep(s: string, cs: string)
    requires s != []
    ensures SumCounts(s, cs) == Count(cs, s[0]) + SumCounts(s[1..], cs)
  {
    if cs != [] {
      SumCountsStep(s, cs[1..]);
    }
  }

  lemma {:induction false} DistinctCount(cs: string, c: char)
    requires Distinct(cs)
    ensures Count(cs, c) == if c in cs then 1 else 0
  {
    if cs != [] {
      assert Distinct(cs[1..]);
      DistinctCount(cs[1..], c);
      assert cs == [cs[0]] + cs[1..];
      if cs[0] == c {
        assert c !in cs[1..];
      }
    }
  }

  /** For distinct characters, counting each one and adding up is counting
      the characters that are any of them. */
  lemma {:induction false} SumCountsIsCountIn(s: string, cs: string)
    requires Distinct(cs)
    ensures SumCounts(s, cs) == CountIn(s, cs)
  {
    if s == [] {
      SumCountsOfEmpty(cs);
    } else {
      SumCountsStep(s, cs);
      DistinctCount(cs, s[0]);
      SumCountsIsCountIn(s[1..], cs);
    }
  }

  lemma {:induction false} SumCountsOfEmpty(cs: string)
    ensures SumCounts([], cs) == 0
  {
    if cs != [] {
      SumCountsOfEmpty(cs[1..]);
    }
  }

  /** A table of single-character literals counts the sum of those
      characters' occurrences. */
  lemma {:induction false} LiteralTableTotal(table: seq<Entry>, cs: string, s: string)
    requires |table| == |cs|
    requires forall i :: 0 <= i < |table| ==> Parse(table[i].source) == Some([Lit(cs[i])])
    ensures TableTotal(table, s) == SumCounts(s, cs)
  {
    if table != [] {
      LiteralCount(cs[0], s);
      LiteralTableTotal(table[1..], cs[1..], s);
    }
  }

  lemma LiteralTableCountsIn(table: seq<Entry>, cs: string, s: string)
    requires |table| == |cs| && Distinct(cs)
    requires forall i :: 0 <= i < |table| ==> Parse(table[i].source) == Some([Lit(cs[i])])
    ensures TableTotal(table, s) == CountIn(s, cs)
  {
    LiteralTableTotal(table, cs, s);
    SumCountsIsCountIn(s, cs);
  }

  /** As written, a row's `specials` total is one for the "caret" anchor plus
      the occurrences of the other sixteen symbols: a '^' is never counted. */
  lemma SpecialsTotal(s: string)
    ensures TableTotal(Specials, s) == 1 + CountIn(s, SpecialSymbols) - Count(s, '^')
  {
    SpecialsPatterns();
    SymbolsDistinct();
    var k := CaretIndex;
    assert Specials == Specials[..k] + [Specials[k]] + Specials[k + 1..];
    assert SpecialSymbols == SpecialSymbols[..k] + [SpecialSymbols[k]] + SpecialSymbols[k + 1..];
    assert SpecialSymbols[k] == '^';
    TableTotalConcat(Specials[..k] + [Specials[k]], Specials[k + 1..], s);
    TableTotalConcat(Specials[..k], [Specials[k]], s);
    AnchorCount(s);
    assert TableTotal([Specials[k]], s) == 1;
    LiteralTableTotal(Specials[..k], SpecialSymbols[..k], s);
    LiteralTableTotal(Specials[k + 1..], SpecialSymbols[k + 1..], s);
    SumCountsConcat(s, SpecialSymbols[..k] + [SpecialSymbols[k]], SpecialSymbols[k + 1..]);
    SumCountsConcat(s, SpecialSymbols[..k], [SpecialSymbols[k]]);
    assert SumCounts(s, [SpecialSymbols[k]]) == Count(s, '^');
    SumCountsIsCountIn(s, SpecialSymbols);
  }

  /** As written, a row's `punctuation` total is the occurrences of the
      fifteen punctuation symbols plus the "elipses" count, one per three
      characters of each line. */
  lemma PunctuationTotal(s: string)
    ensures TableTotal(Punctuation, s) == CountIn(s, PunctuationSymbols) + SumThirds(Split(s, '\n'))
  {
    PunctuationPatterns();
    SymbolsDistinct();
    var k := EllipsisIndex;
    assert Punctuation == Punctuation[..k] + [Punctuation[k]];
    TableTotalConcat(Punctuation[..k], [Punctuation[k]], s);
    ThreeAnyCount(s);
    assert TableTotal([Punctuation[k]], s) == SumThirds(Split(s, '\n'));
    LiteralTableTotal(Punctuation[..k], PunctuationSymbols, s);
    SumCountsIsCountIn(s, PunctuationSymbols);
  }

  /** The `specials` table with "caret" escaped so that it matches '^'. */
  const SpecialsIntended: seq<Entry> := Table(SpecialNames, SpecialSources[CaretIndex := "\\^"])

  /** The `punctuation` table with "elipses" escaped so that it matches "...". */
  const PunctuationIntended: seq<Entry> := Table(PunctuationNames, PunctuationSources[EllipsisIndex := "\\.\\.\\."])

  const ThreeDots: Pattern := [Lit('.'), Lit('.'), Lit('.')]

  lemma SpecialsIntendedPatterns()
    ensures |SpecialsIntended| == |SpecialSymbols|
    ensures forall i :: 0 <= i < |SpecialsIntended| ==> Parse(SpecialsIntended[i].source) == Some([Lit(SpecialSymbols[i])])
  {
    SpecialSourcesAreLiteral();
    var sources := SpecialSources[CaretIndex := "\\^"];
    assert LiteralSource("\\^", '^');
    forall i | 0 <= i < |SpecialsIntended|
      ensures Parse(SpecialsIntended[i].source) == Some([Lit(SpecialSymbols[i])])
    {
      assert SpecialsIntended[i].source == sources[i];
      ParsesLiteral(sources[i], SpecialSymbols[i]);
    }
  }

  /** With "caret" escaped, a row's total is the number of its characters
      that are special symbols. */
  lemma SpecialsIntendedTotal(s: string)
    ensures TableTotal(SpecialsIntended, s) == CountIn(s, SpecialSymbols)
  {
    SpecialsIntendedPatterns();
    SymbolsDistinct();
    LiteralTableCountsIn(SpecialsIntended, SpecialSymbols, s);
  }

  /** A text of letters only ("hello"): one special character as written,
      none intended. */
  lemma CaretCountsEveryRow(s: string)
    requires forall i :: 0 <= i < |s| ==> IsAlpha(s[i])
    ensures TableTotal(Specials, s) == 1
    ensures TableTotal(SpecialsIntended, s) == 0
  {
    SymbolsAreNotLetters();
    NoSymbolsIn(s, SpecialSymbols);
    SpecialsTotal(s);
    SpecialsIntendedTotal(s);
  }

  lemma SymbolsAreNotLetters()
    ensures forall j :: 0 <= j < |SpecialSymbols| ==> !IsAlpha(SpecialSymbols[j])
    ensures forall j :: 0 <= j < |PunctuationSymbols| ==> !IsAlpha(PunctuationSymbols[j])
  {
  }

  lemma {:induction false} NoSymbolsIn(s: string, cs: string)
    requires forall i :: 0 <= i < |s| ==> IsAlpha(s[i])
    requires forall j :: 0 <= j < |cs| ==> !IsAlpha(cs[j])
    ensures CountIn(s, cs) == 0 && Count(s, '^') == 0 && Count(s, '.') == 0
  {
    if s != [] {
      NoSymbolsIn(s[1..], cs);
      assert s[0] !in cs;
    }
  }

  lemma ThreeDotsFacts(s: string, i: nat)
    ensures Width(ThreeDots) == 3
    ensures MatchesAt(ThreeDots, s, i) <==> i + 3 <= |s| && s[i] == '.' && s[i + 1] == '.' && s[i + 2] == '.'
  {
    assert ThreeDots[1..] == [Lit('.'), Lit('.')];
    assert ThreeDots[1..][1..] == [Lit('.')];
    assert [Lit('.')][1..] == [];
  }

  lemma {:induction false} ThreeDotsMatches(s: string, i: nat)
    requires i <= |s|
    ensures 3 * MatchesFrom(ThreeDots, s, i) <= Count(s[i..], '.')
    decreases |s| - i
  {
    ThreeDotsFacts(s, i);
    if i == |s| {
    } else if MatchesAt(ThreeDots, s, i) {
      ThreeDotsMatches(s, i + 3);
      assert s[i..] == s[i..i + 3] + s[i + 3..];
      CountConcat(s[i..i + 3], s[i + 3..], '.');
      var dots := s[i..i + 3];
      assert dots[0] == '.' && dots[1..][0] == '.' && dots[1..][1..][0] == '.' && dots[1..][1..][1..] == [];
      assert Count(dots[1..][1..], '.') == 1;
      assert Count(dots[1..], '.') == 2;
      assert Count(dots, '.') == 3;
    } else {
      ThreeDotsMatches(s, i + 1);
      assert s[i..][1..] == s[i + 1..];
    }
  }

  /** With "elipses" escaped, a row's total is the punctuation symbols plus
      the non-overlapping runs of three periods, at most a third of its
      periods. */
  lemma PunctuationIntendedTotal(s: string)
    ensures TableTotal(PunctuationIntended, s) == CountIn(s, PunctuationSymbols) + MatchCount(ThreeDots, s)
    ensures 3 * MatchCount(ThreeDots, s) <= Count(s, '.')
  {
    PunctuationSourcesAreLiteral();
    SymbolsDistinct();
    var k := EllipsisIndex;
    var e := PunctuationIntended[k].source;
    assert e == "\\.\\.\\.";
    assert Parse(e) == Some(ThreeDots) by {
      assert e[2..] == "\\.\\." && e[2..][2..] == "\\." && e[2..][2..][2..] == [];
      assert Parse(e[2..][2..]) == Prepend(Lit('.'), Parse(e[2..][2..][2..]));
      assert [Lit('.')] + [] == [Lit('.')];
      assert Parse(e[2..]) == Prepend(Lit('.'), Parse(e[2..][2..]));
      assert [Lit('.')] + [Lit('.')] == [Lit('.'), Lit('.')];
      assert Parse(e) == Prepend(Lit('.'), Parse(e[2..]));
      assert [Lit('.')] + [Lit('.'), Lit('.')] == ThreeDots;
    }
    forall i | 0 <= i < k
      ensures Parse(PunctuationIntended[i].source) == Some([Lit(PunctuationSymbols[i])])
    {
      ParsesLiteral(PunctuationSources[i], PunctuationSymbols[i]);
    }
    assert PunctuationIntended == PunctuationIntended[..k] + [PunctuationIntended[k]];
    TableTotalConcat(PunctuationIntended[..k], [PunctuationIntended[k]], s);
    LiteralTableTotal(PunctuationIntended[..k], PunctuationSymbols, s);
    SumCountsIsCountIn(s, PunctuationSymbols);
    ThreeDotsMatches(s, 0);
    assert s[0..] == s;
  }

  /** A line of three letters ("abc"): one "elipses" match as written, none
      intended. */
  lemma EllipsisMatchesAnyThree(s: string)
    requires |s| == 3 && forall i :: 0 <= i < |s| ==> IsAlpha(s[i])
    ensures TableTotal(Punctuation, s) == 1
    ensures TableTotal(PunctuationIntended, s) == 0
  {
    SymbolsAreNotLetters();
    NoSymbolsIn(s, PunctuationSymbols);
    PunctuationTotal(s);
    PunctuationIntendedTotal(s);
    assert '\n' !in s by {
      assert !IsAlpha('\n');
    }
    SplitWithoutSeparator(s, '\n');
    assert Split(s, '\n')[1..] == [];
  }
}
