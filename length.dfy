/** The length features of aes/features/extraction/length.py: per-row
    counters over an essay's text, and the extractor objects that apply them
    to a column of texts. The two table-driven extractors (special characters
    and punctuation) also keep a running per-symbol tally. */
module Length {
  import opened Wrappers
  import opened Text
  import opened Symbols

  // ---------------------------------------------------------------------------
  // Per-row counters
  // ---------------------------------------------------------------------------

  /** The number of alphabetic characters (`len([i for i in x if i.isalpha()])`). */
  function AlphaCount(s: string): (n: nat)
    ensures n <= |s|
    ensures n == |s| <==> forall i :: 0 <= i < |s| ==> IsAlpha(s[i])
    ensures n == 0 <==> forall i :: 0 <= i < |s| ==> !IsAlpha(s[i])
  {
    if s == [] then 0
    else
      var rest := AlphaCount(s[1..]);
      assert forall i :: 1 <= i < |s| ==> s[i] == s[1..][i - 1];
      (if IsAlpha(s[0]) then 1 else 0) + rest
  }

  /** Counting letters distributes over concatenation. */
  lemma {:induction false} AlphaCountConcat(a: string, b: string)
    ensures AlphaCount(a + b) == AlphaCount(a) + AlphaCount(b)
  {
    if a == [] {
      assert a + b == b;
    } else {
      assert (a + b)[0] == a[0] && (a + b)[1..] == a[1..] + b;
      AlphaCountConcat(a[1..], b);
    }
  }

  /** `t.isdigit()`: non-empty and all digits. */
  predicate IsDigitString(t: string)
  {
    |t| > 0 && forall i :: 0 <= i < |t| ==> IsDigit(t[i])
  }

  function DigitTokens(tokens: seq<string>): (n: nat)
    ensures n <= |tokens|
    ensures n == |tokens| <==> forall i :: 0 <= i < |tokens| ==> IsDigitString(tokens[i])
  {
    if tokens == [] then 0
    else
      var rest := DigitTokens(tokens[1..]);
      assert forall i :: 1 <= i < |tokens| ==> tokens[i] == tokens[1..][i - 1];
      (if IsDigitString(tokens[0]) then 1 else 0) + rest
  }

  /** The number of whitespace-separated tokens made only of digits
      (`len([x for x in x.split() if x.isdigit()])`). */
  function NumberCount(s: string): (n: nat)
    ensures n <= |Tokens(s)| <= |s|
    ensures n == |Tokens(s)| <==> forall i :: 0 <= i < |Tokens(s)| ==> IsDigitString(Tokens(s)[i])
  {
    DigitTokens(Tokens(s))
  }

  /** A text without digits has no number tokens. */
  lemma {:induction false} NoDigitsNoNumbers(s: string)
    requires forall i :: 0 <= i < |s| ==> !IsDigit(s[i])
    ensures NumberCount(s) == 0
  {
    NoDigitTokens(s);
    NoDigitStrings(Tokens(s));
  }

  lemma {:induction false} NoDigitTokens(s: string)
    requires forall i :: 0 <= i < |s| ==> !IsDigit(s[i])
    ensures forall i, j :: 0 <= i < |Tokens(s)| && 0 <= j < |Tokens(s)[i]| ==> !IsDigit(Tokens(s)[i][j])
  {
    if s != [] {
      NoDigitTokens(s[1..]);
    }
  }

  lemma {:induction false} NoDigitStrings(tokens: seq<string>)
    requires forall i, j :: 0 <= i < |tokens| && 0 <= j < |tokens[i]| ==> !IsDigit(tokens[i][j])
    ensures DigitTokens(tokens) == 0
  {
    if tokens != [] {
      NoDigitStrings(tokens[1..]);
      if |tokens[0]| > 0 {
        assert !IsDigit(tokens[0][0]);
      }
    }
  }

  /** `len(re.findall(punctuation["comma"], s))`. */
  function CommasCount(s: string): (n: nat)
    ensures n == Count(s, ',')
  {
    CommaEntry();
    LiteralCount(',', s);
    EntryCount(Lookup(Punctuation, "comma").value, s)
  }

  /** `len(re.findall(punctuation["question mark"], s))`. */
  function QuestionMarksCount(s: string): (n: nat)
    ensures n == Count(s, '?')
  {
    QuestionMarkEntry();
    LiteralCount('?', s);
    EntryCount(Lookup(Punctuation, "question mark").value, s)
  }

  /** The pieces strictly longer than `minLength`, in order. */
  function Longer(pieces: seq<string>, minLength: int): (r: seq<string>)
    ensures |r| <= |pieces|
    ensures forall i :: 0 <= i < |r| ==> |r[i]| > minLength && r[i] in pieces
  {
    if pieces == [] then []
    else
      var rest := Longer(pieces[1..], minLength);
      if |pieces[0]| > minLength then [pieces[0]] + rest else rest
  }

  /** `len([t for t in s.split(" ") if len(t) > min_length])`. */
  function WordCount(s: string, minLength: int): nat
  {
    |Longer(Split(s, ' '), minLength)|
  }

  lemma {:induction false} LongerMonotone(pieces: seq<string>, m1: int, m2: int)
    requires m1 <= m2
    ensures |Longer(pieces, m2)| <= |Longer(pieces, m1)|
  {
    if pieces != [] {
      LongerMonotone(pieces[1..], m1, m2);
    }
  }

  /** Raising the threshold never increases the word count. */
  lemma WordCountMonotone(s: string, m1: int, m2: int)
    requires m1 <= m2
    ensures WordCount(s, m2) <= WordCount(s, m1)
  {
    LongerMonotone(Split(s, ' '), m1, m2);
  }

  lemma {:induction false} LongerAll(pieces: seq<string>, minLength: int)
    requires minLength < 0
    ensures Longer(pieces, minLength) == pieces
  {
    if pieces != [] {
      LongerAll(pieces[1..], minLength);
      assert pieces == [pieces[0]] + pieces[1..];
    }
  }

  /** With a negative threshold every piece counts: one more than the spaces. */
  lemma WordCountNegative(s: string, minLength: int)
    requires minLength < 0
    ensures WordCount(s, minLength) == Count(s, ' ') + 1
  {
    LongerAll(Split(s, ' '), minLength);
  }

  /** Where ' ' is the only whitespace, the non-empty pieces of `split(" ")`
      are the tokens of `split()`: the default word count is the number of
      words. */
  lemma {:induction false} WordCountIsTokens(s: string)
    requires forall i :: 0 <= i < |s| && IsSpace(s[i]) ==> s[i] == ' '
    ensures Longer(Split(s, ' '), 0) == Tokens(s)
    ensures WordCount(s, 0) == |Tokens(s)|
  {
    if s != [] {
      WordCountIsTokens(s[1..]);
      var pieces := Split(s[1..], ' ');
      var rest := Tokens(s[1..]);
      if s[0] == ' ' {
        assert Split(s, ' ') == [[]] + pieces;
        assert ([[]] + pieces)[1..] == pieces;
      } else {
        assert !IsSpace(s[0]);
        assert Split(s, ' ') == [[s[0]] + pieces[0]] + pieces[1..];
        assert ([[s[0]] + pieces[0]] + pieces[1..])[1..] == pieces[1..];
        assert pieces == [pieces[0]] + pieces[1..];
        if |s| > 1 && !IsSpace(s[1]) {
          assert s[1..][0] == s[1];
          assert |pieces[0]| > 0;
          assert Longer(pieces, 0) == [pieces[0]] + Longer(pieces[1..], 0);
        } else {
          assert |s| > 1 ==> s[1..][0] == s[1];
          assert |pieces[0]| == 0;
          assert [s[0]] + pieces[0] == [s[0]];
          assert Longer(pieces, 0) == Longer(pieces[1..], 0);
        }
      }
    }
  }

  /** The numerator and denominator of `sum(len(w) for w in words) / len(words)`
      for `words = s.split(" ")`: the letters other than spaces, over the
      number of pieces, which is never zero. */
  function AverageWordLength(s: string): (r: (nat, nat))
    ensures r.1 == Count(s, ' ') + 1 >= 1
    ensures r.0 == |s| - Count(s, ' ')
  {
    SumLengthsOfSplit(s, ' ');
    (SumLengths(Split(s, ' ')), |Split(s, ' ')|)
  }

  /** The empty text averages 0 / 1. */
  lemma AverageOfEmpty()
    ensures AverageWordLength("") == (0, 1)
  {
    assert Count("", ' ') == 0;
  }

  function Sum(xs: seq<nat>): nat
  {
    if xs == [] then 0 else xs[0] + Sum(xs[1..])
  }

  /** `[len(word) for word in s.split(" ")]`, whose spread StdWordLength takes. */
  function WordLengths(s: string): (r: seq<nat>)
    ensures |r| == Count(s, ' ') + 1
    ensures Sum(r) == |s| - Count(s, ' ')
  {
    var pieces := Split(s, ' ');
    SumLengthsOfSplit(s, ' ');
    LengthsSum(pieces);
    seq(|pieces|, i requires 0 <= i < |pieces| => |pieces[i]|)
  }

  lemma {:induction false} LengthsSum(pieces: seq<string>)
    ensures Sum(seq(|pieces|, i requires 0 <= i < |pieces| => |pieces[i]|)) == SumLengths(pieces)
  {
    if pieces != [] {
      LengthsSum(pieces[1..]);
      var l := seq(|pieces|, i requires 0 <= i < |pieces| => |pieces[i]|);
      assert l[1..] == seq(|pieces[1..]|, i requires 0 <= i < |pieces[1..]| => |pieces[1..][i]|);
    }
  }

  /** `len(set(s.split(" ")))`. */
  function VocabularySize(s: string): (n: nat)
    ensures 1 <= n <= Count(s, ' ') + 1
    ensures n == Count(s, ' ') + 1 <==> Distinct(Split(s, ' '))
  {
    ElementsBound(Split(s, ' '));
    ElementsDistinct(Split(s, ' '));
    |Elements(Split(s, ' '))|
  }

  // ---------------------------------------------------------------------------
  // Extractors
  // ---------------------------------------------------------------------------

  /** The extractor classes of length.py, in the order they are declared. */
  datatype Kind =
    | AlphaCharacters | NumberCharacters | SpecialCharacters | PunctuationMarks | Commas
    | QuestionMarks | WordCounter | AvgWordLength | StdWordLength | VocabularySizeCounter
    | SentenceCount | AvgSentenceLength | StdSentenceLength

  const Kinds: seq<Kind> := [
    AlphaCharacters, NumberCharacters, SpecialCharacters, PunctuationMarks, Commas,
    QuestionMarks, WordCounter, AvgWordLength, StdWordLength, VocabularySizeCounter,
    SentenceCount, AvgSentenceLength, StdSentenceLength
  ]

  /** The canonical feature name each class assigns to `_name`. */
  function CanonicalName(kind: Kind): string
  {
    match kind
    case AlphaCharacters => "alphabetic_character_count"
    case NumberCharacters => "number_character_count"
    case SpecialCharacters => "special_character_count"
    case PunctuationMarks => "punctuation_count"
    case Commas => "commas_count"
    case QuestionMarks => "question_mark_count"
    case WordCounter => "word_count"
    case AvgWordLength => "avg_word_length"
    case StdWordLength => "std_word_length"
    case VocabularySizeCounter => "vocabulary_size"
    case SentenceCount => "sentence_count"
    case AvgSentenceLength => "avg_sentence_length"
    case StdSentenceLength => "std_sentence_length"
  }

  const LengthCategory := "length"

  /** Different classes carry different names, so a name identifies its class. */
  lemma CanonicalNamesDistinct()
    ensures forall k1, k2 :: CanonicalName(k1) == CanonicalName(k2) ==> k1 == k2
  {
    forall k1, k2 | CanonicalName(k1) == CanonicalName(k2) ensures k1 == k2 {
      assert |CanonicalName(k1)| == |CanonicalName(k2)| && CanonicalName(k1)[0] == CanonicalName(k2)[0];
    }
  }

  /** The extractors whose per-row value this model computes (the sentence
      extractors rest on NLTK's tokenizers). */
  predicate Modelled(kind: Kind)
  {
    !(kind.SentenceCount? || kind.AvgSentenceLength? || kind.StdSentenceLength?)
  }

  /** The extractors that keep a per-symbol tally. */
  predicate Tallies(kind: Kind)
  {
    kind.SpecialCharacters? || kind.PunctuationMarks?
  }

  /** The symbol table an extractor iterates over. */
  function TableOf(kind: Kind): seq<Entry>
  {
    if kind.SpecialCharacters? then Specials
    else if kind.PunctuationMarks? then Punctuation
    else []
  }

  /** One row's value: a count, the numerator and denominator of an average,
      or the word lengths whose standard deviation is taken. */
  datatype Value = Number(n: nat) | Ratio(total: nat, count: nat) | Lengths(lengths: seq<nat>)

  /** The value an extractor returns for one text; `table` is the one the
      extractor iterates over (`TableOf(kind)`). */
  function RowValue(kind: Kind, table: seq<Entry>, s: string, minLength: int): Value
    requires Modelled(kind)
  {
    match kind
    case AlphaCharacters => Number(AlphaCount(s))
    case NumberCharacters => Number(NumberCount(s))
    case SpecialCharacters => Number(TableTotal(table, s))
    case PunctuationMarks => Number(TableTotal(table, s))
    case Commas => Number(CommasCount(s))
    case QuestionMarks => Number(QuestionMarksCount(s))
    case WordCounter => Number(WordCount(s, minLength))
    case AvgWordLength => Ratio(AverageWordLength(s).0, AverageWordLength(s).1)
    case StdWordLength => Lengths(WordLengths(s))
    case VocabularySizeCounter => Number(VocabularySize(s))
  }

  // ---------------------------------------------------------------------------
  // The per-symbol tally
  // ---------------------------------------------------------------------------

  function Get(tally: map<string, nat>, k: string): nat
  {
    if k in tally then tally[k] else 0
  }

  /** `_initialize_counts`: every symbol of the table set to 0, in table order. */
  function Zeroed(tally: map<string, nat>, table: seq<Entry>): map<string, nat>
    decreases table
  {
    if table == [] then tally else Zeroed(tally[table[0].name := 0], table[1..])
  }

  /** `_count_feature`'s updates: each symbol's count in `s` added to its tally. */
  function AddRow(tally: map<string, nat>, table: seq<Entry>, s: string): map<string, nat>
    decreases table
  {
    if table == [] then tally else AddRow(Bump(tally, table[0], s), table[1..], s)
  }

  /** `self._counts_dict[k] += count` for one entry. */
  function Bump(tally: map<string, nat>, e: Entry, s: string): map<string, nat>
  {
    tally[e.name := Get(tally, e.name) + EntryCount(e, s)]
  }

  lemma {:induction false} AddRowConcat(tally: map<string, nat>, a: seq<Entry>, b: seq<Entry>, s: string)
    ensures AddRow(tally, a + b, s) == AddRow(AddRow(tally, a, s), b, s)
    decreases a
  {
    if a == [] {
      assert a + b == b;
    } else {
      assert (a + b)[0] == a[0] && (a + b)[1..] == a[1..] + b;
      AddRowConcat(Bump(tally, a[0], s), a[1..], b, s);
    }
  }

  /** Counting the first `i + 1` entries is counting the first `i` and then
      entry `i`. */
  lemma AddRowSnoc(tally: map<string, nat>, table: seq<Entry>, i: nat, s: string)
    requires i < |table|
    ensures AddRow(tally, table[..i + 1], s) == Bump(AddRow(tally, table[..i], s), table[i], s)
    ensures TableTotal(table[..i + 1], s) == TableTotal(table[..i], s) + EntryCount(table[i], s)
  {
    assert table[..i + 1] == table[..i] + [table[i]];
    AddRowConcat(tally, table[..i], [table[i]], s);
    TableTotalConcat(table[..i], [table[i]], s);
    assert [table[i]][1..] == [];
  }

  /** The tally after counting every row in turn. */
  function AddRows(tally: map<string, nat>, table: seq<Entry>, rows: seq<string>): map<string, nat>
    decreases rows
  {
    if rows == [] then tally else AddRows(AddRow(tally, table, rows[0]), table, rows[1..])
  }

  /** The sum of the tallies of the given keys. */
  function TallySum(tally: map<string, nat>, keys: seq<string>): nat
  {
    if keys == [] then 0 else Get(tally, keys[0]) + TallySum(tally, keys[1..])
  }

  /** The sum of the table totals of every row. */
  function RowsTotal(table: seq<Entry>, rows: seq<string>): nat
  {
    if rows == [] then 0 else TableTotal(table, rows[0]) + RowsTotal(table, rows[1..])
  }

  lemma {:induction false} ZeroedKeys(tally: map<string, nat>, table: seq<Entry>)
    ensures Zeroed(tally, table).Keys == tally.Keys + Elements(Names(table))
    ensures forall k :: k in Elements(Names(table)) ==> Zeroed(tally, table)[k] == 0
    ensures forall k :: k in tally && k !in Elements(Names(table)) ==> Zeroed(tally, table)[k] == tally[k]
    decreases table
  {
    if table != [] {
      ZeroedKeys(tally[table[0].name := 0], table[1..]);
      assert Names(table) == [table[0].name] + Names(table[1..]);
      assert Elements(Names(table)) == {table[0].name} + Elements(Names(table[1..]));
    }
  }

  lemma {:induction false} AddRowKeys(tally: map<string, nat>, table: seq<Entry>, s: string)
    ensures AddRow(tally, table, s).Keys == tally.Keys + Elements(Names(table))
    decreases table
  {
    if table != [] {
      AddRowKeys(Bump(tally, table[0], s), table[1..], s);
      assert Names(table) == [table[0].name] + Names(table[1..]);
      assert Elements(Names(table)) == {table[0].name} + Elements(Names(table[1..]));
    }
  }

  lemma {:induction false} AddRowsKeys(tally: map<string, nat>, table: seq<Entry>, rows: seq<string>)
    ensures AddRows(tally, table, rows).Keys == tally.Keys + (if rows == [] then {} else Elements(Names(table)))
    decreases rows
  {
    if rows != [] {
      AddRowKeys(tally, table, rows[0]);
      AddRowsKeys(AddRow(tally, table, rows[0]), table, rows[1..]);
    }
  }

  /** Changing one key's tally changes the sum by the difference. */
  lemma {:induction false} TallySumUpdate(tally: map<string, nat>, keys: seq<string>, k: string, v: nat)
    requires Distinct(keys) && k in keys
    ensures TallySum(tally[k := v], keys) + Get(tally, k) == TallySum(tally, keys) + v
  {
    if keys[0] == k {
      assert k !in keys[1..];
      TallySumOther(tally, keys[1..], k, v);
    } else {
      TallySumUpdate(tally, keys[1..], k, v);
    }
  }

  lemma {:induction false} TallySumOther(tally: map<string, nat>, keys: seq<string>, k: string, v: nat)
    requires k !in keys
    ensures TallySum(tally[k := v], keys) == TallySum(tally, keys)
  {
    if keys != [] {
      TallySumOther(tally, keys[1..], k, v);
    }
  }

  lemma {:induction false} TallySumZero(tally: map<string, nat>, keys: seq<string>)
    requires forall i :: 0 <= i < |keys| ==> Get(tally, keys[i]) == 0
    ensures TallySum(tally, keys) == 0
  {
    if keys != [] {
      TallySumZero(tally, keys[1..]);
    }
  }

  /** Counting a row raises the tallies' sum by the row's total. */
  lemma {:induction false} TallySumAddRow(tally: map<string, nat>, table: seq<Entry>, keys: seq<string>, s: string)
    requires Distinct(keys)
    requires forall i :: 0 <= i < |table| ==> table[i].name in keys
    ensures TallySum(AddRow(tally, table, s), keys) == TallySum(tally, keys) + TableTotal(table, s)
    decreases table
  {
    if table != [] {
      var k := table[0].name;
      var next := Bump(tally, table[0], s);
      TallySumUpdate(tally, keys, k, Get(tally, k) + EntryCount(table[0], s));
      TallySumAddRow(next, table[1..], keys, s);
    }
  }

  lemma {:induction false} TallySumAddRows(tally: map<string, nat>, table: seq<Entry>, keys: seq<string>, rows: seq<string>)
    requires Distinct(keys)
    requires forall i :: 0 <= i < |table| ==> table[i].name in keys
    ensures TallySum(AddRows(tally, table, rows), keys) == TallySum(tally, keys) + RowsTotal(table, rows)
    decreases rows
  {
    if rows != [] {
      TallySumAddRow(tally, table, keys, rows[0]);
      TallySumAddRows(AddRow(tally, table, rows[0]), table, keys, rows[1..]);
    }
  }

  /** After `extract`, the tallies add up to the sum of the returned row
      totals, whatever they held before. */
  lemma TallyMatchesColumn(tally: map<string, nat>, table: seq<Entry>, rows: seq<string>)
    requires Distinct(Names(table))
    ensures TallySum(AddRows(Zeroed(tally, table), table, rows), Names(table)) == RowsTotal(table, rows)
  {
    ZeroedKeys(tally, table);
    forall i | 0 <= i < |Names(table)| ensures Get(Zeroed(tally, table), Names(table)[i]) == 0 {
      assert Names(table)[i] in Elements(Names(table));
    }
    TallySumZero(Zeroed(tally, table), Names(table));
    forall i | 0 <= i < |table| ensures table[i].name in Names(table) {
      assert Names(table)[i] == table[i].name;
    }
    TallySumAddRows(Zeroed(tally, table), table, Names(table), rows);
  }

  /** The total of the entries named `k` in one row. */
  function KeyTotal(table: seq<Entry>, k: string, s: string): nat
  {
    if table == [] then 0 else (if table[0].name == k then EntryCount(table[0], s) else 0) + KeyTotal(table[1..], k, s)
  }

  /** The total of the entries named `k` over all rows. */
  function KeyRowsTotal(table: seq<Entry>, k: string, rows: seq<string>): nat
  {
    if rows == [] then 0 else KeyTotal(table, k, rows[0]) + KeyRowsTotal(table, k, rows[1..])
  }

  lemma {:induction false} AddRowAt(tally: map<string, nat>, table: seq<Entry>, s: string, k: string)
    ensures Get(AddRow(tally, table, s), k) == Get(tally, k) + KeyTotal(table, k, s)
    decreases table
  {
    if table != [] {
      AddRowAt(Bump(tally, table[0], s), table[1..], s, k);
    }
  }

  lemma {:induction false} AddRowsAt(tally: map<string, nat>, table: seq<Entry>, rows: seq<string>, k: string)
    ensures Get(AddRows(tally, table, rows), k) == Get(tally, k) + KeyRowsTotal(table, k, rows)
    decreases rows
  {
    if rows != [] {
      AddRowAt(tally, table, rows[0], k);
      AddRowsAt(AddRow(tally, table, rows[0]), table, rows[1..], k);
    }
  }

  /** In a table without repeated names, the entries named like entry `j` are
      entry `j` alone. */
  lemma {:induction false} KeyTotalDistinct(table: seq<Entry>, j: nat, s: string)
    requires j < |table| && Distinct(Names(table))
    ensures KeyTotal(table, table[j].name, s) == EntryCount(table[j], s)
  {
    assert Names(table)[0] == table[0].name;
    if j == 0 {
      forall i | 0 <= i < |table[1..]| ensures table[1..][i].name != table[0].name {
        assert Names(table)[i + 1] == table[1..][i].name;
      }
      KeyTotalAbsent(table[1..], table[0].name, s);
    } else {
      assert Names(table[1..]) == Names(table)[1..];
      assert table[0].name == Names(table)[0] != Names(table)[j] == table[j].name;
      KeyTotalDistinct(table[1..], j - 1, s);
    }
  }

  lemma {:induction false} KeyTotalAbsent(table: seq<Entry>, k: string, s: string)
    requires forall i :: 0 <= i < |table| ==> table[i].name != k
    ensures KeyTotal(table, k, s) == 0
  {
    if table != [] {
      KeyTotalAbsent(table[1..], k, s);
    }
  }

  /** After `extract`, each symbol's tally is the number of its matches over
      all rows. */
  lemma {:induction false} TallyPerSymbol(tally: map<string, nat>, table: seq<Entry>, rows: seq<string>, j: nat)
    requires j < |table| && Distinct(Names(table))
    ensures Get(AddRows(Zeroed(tally, table), table, rows), table[j].name) == EntryRowsTotal(table[j], rows)
  {
    ZeroedKeys(tally, table);
    assert table[j].name == Names(table)[j];
    AddRowsAt(Zeroed(tally, table), table, rows, table[j].name);
    KeyRowsTotalDistinct(table, j, rows);
  }

  function EntryRowsTotal(e: Entry, rows: seq<string>): nat
  {
    if rows == [] then 0 else EntryCount(e, rows[0]) + EntryRowsTotal(e, rows[1..])
  }

  lemma {:induction false} KeyRowsTotalDistinct(table: seq<Entry>, j: nat, rows: seq<string>)
    requires j < |table| && Distinct(Names(table))
    ensures KeyRowsTotal(table, table[j].name, rows) == EntryRowsTotal(table[j], rows)
  {
    if rows != [] {
      KeyTotalDistinct(table, j, rows[0]);
      KeyRowsTotalDistinct(table, j, rows[1..]);
    }
  }

  /** The loop of `_count_feature`, on the tallies as a value. */
  method CountTable(table: seq<Entry>, text: string, start: map<string, nat>) returns (tally: map<string, nat>, total: nat)
    requires forall i :: 0 <= i < |table| ==> table[i].name in start
    ensures tally == AddRow(start, table, text) && tally.Keys == start.Keys
    ensures total == TableTotal(table, text)
  {
    total := 0;
    tally := start;
    var i := 0;
    while i < |table|
      invariant 0 <= i <= |table|
      invariant tally == AddRow(start, table[..i], text)
      invariant total == TableTotal(table[..i], text)
      invariant tally.Keys == start.Keys
    {
      AddRowSnoc(start, table, i, text);
      var k := table[i].name;
      var count := EntryCount(table[i], text);
      tally := tally[k := tally[k] + count];
      total := total + count;
      i := i + 1;
    }
    assert table[..i] == table;
  }

  /** `_count_feature` applied to every row in turn: the row totals, and the
      tallies after the last row. */
  method CountRows(table: seq<Entry>, rows: seq<string>, start: map<string, nat>) returns (tally: map<string, nat>, column: seq<Value>)
    requires forall j :: 0 <= j < |table| ==> table[j].name in start
    ensures tally == AddRows(start, table, rows) && tally.Keys == start.Keys
    ensures |column| == |rows|
    ensures forall i :: 0 <= i < |rows| ==> column[i] == Number(TableTotal(table, rows[i]))
  {
    tally := start;
    column := [];
    var i := 0;
    while i < |rows|
      invariant 0 <= i <= |rows|
      invariant tally.Keys == start.Keys
      invariant AddRows(tally, table, rows[i..]) == AddRows(start, table, rows)
      invariant |column| == i
      invariant forall j :: 0 <= j < i ==> column[j] == Number(TableTotal(table, rows[j]))
    {
      assert rows[i..][0] == rows[i] && rows[i..][1..] == rows[i + 1..];
      var total;
      tally, total := CountTable(table, rows[i], tally);
      column := column + [Number(total)];
      i := i + 1;
    }
    assert rows[i..] == [];
  }

  /** `extract` for the extractors without tallies: `apply` over the rows. */
  method Column(kind: Kind, table: seq<Entry>, rows: seq<string>, minLength: int) returns (column: seq<Value>)
    requires Modelled(kind)
    ensures |column| == |rows|
    ensures forall i :: 0 <= i < |rows| ==> column[i] == RowValue(kind, table, rows[i], minLength)
  {
    column := [];
    var i := 0;
    while i < |rows|
      invariant 0 <= i <= |rows|
      invariant |column| == i
      invariant forall j :: 0 <= j < i ==> column[j] == RowValue(kind, table, rows[j], minLength)
    {
      column := column + [RowValue(kind, table, rows[i], minLength)];
      i := i + 1;
    }
  }

  /** One extractor object of length.py. The two table-driven classes keep
      `_counts_dict`, here `counts`, across calls to `extract`. */
  class FeatureExtractor {
    const kind: Kind
    const name: string
    const category: string
    const table: seq<Entry>
    var counts: map<string, nat>

    ghost predicate Valid()
      reads this
    {
      && Distinct(Names(table))
      && counts.Keys <= Elements(Names(table))
    }

    constructor (kind: Kind)
      ensures Valid()
      ensures this.kind == kind && name == CanonicalName(kind) && category == LengthCategory
      ensures table == TableOf(kind) && counts == map[]
    {
      this.kind := kind;
      name := CanonicalName(kind);
      category := LengthCategory;
      table := TableOf(kind);
      counts := map[];
      TablesWellFormed();
      assert Names([]) == [];
    }

    /** `_initialize_counts`. */
    method InitializeCounts()
      requires Valid()
      modifies this
      ensures Valid()
      ensures counts == Zeroed(old(counts), table)
    {
      var i := 0;
      while i < |table|
        invariant 0 <= i <= |table|
        invariant Zeroed(counts, table[i..]) == Zeroed(old(counts), table)
        invariant counts.Keys <= Elements(Names(table))
      {
        assert table[i..][0] == table[i] && table[i..][1..] == table[i + 1..];
        assert Names(table)[i] == table[i].name;
        counts := counts[table[i].name := 0];
        i := i + 1;
      }
      assert table[i..] == [];
    }

    /** `_count_feature`: the row's total over the table, each symbol's count
      added to its tally. */
    method CountFeature(text: string) returns (total: nat)
      requires Valid()
      requires forall i :: 0 <= i < |table| ==> table[i].name in counts
      modifies this
      ensures Valid()
      ensures total == TableTotal(table, text)
      ensures counts == AddRow(old(counts), table, text)
    {
      var tally;
      tally, total := CountTable(table, text, counts);
      counts := tally;
    }

    /** `extract`: one value per row, in row order. The table-driven
        extractors first zero their tallies and then count every row; after
        the call, the tallies add up to the returned totals. */
    method Extract(rows: seq<string>, minLength: int) returns (column: seq<Value>)
      requires Valid() && Modelled(kind)
      modifies this
      ensures Valid()
      ensures |column| == |rows|
      ensures forall i :: 0 <= i < |rows| ==> column[i] == RowValue(kind, table, rows[i], minLength)
      ensures Tallies(kind) ==> counts == AddRows(Zeroed(old(counts), table), table, rows)
      ensures Tallies(kind) ==> TallySum(counts, Names(table)) == RowsTotal(table, rows)
      ensures !Tallies(kind) ==> counts == old(counts)
    {
      if Tallies(kind) {
        InitializeCounts();
        ZeroedKeys(old(counts), table);
        assert forall j :: 0 <= j < |table| ==> table[j].name in counts by {
          forall j | 0 <= j < |table| ensures table[j].name in counts {
            assert Names(table)[j] == table[j].name;
          }
        }
        var tally;
        tally, column := CountRows(table, rows, counts);
        counts := tally;
        TallyMatchesColumn(old(counts), table, rows);
      } else {
        column := Column(kind, table, rows, minLength);
      }
    }
  }
}
