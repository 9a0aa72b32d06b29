/** The label formatters of aes/utils/frint.py (copied verbatim as
    aes/utils/pprint.py): `print_int`, an integer with a comma between
    groups of three digits, and `print_str`, a snake_case name as a title. */
module Format {
  import opened Text

  function DigitChar(d: nat): char
    requires d < 10
  {
    ('0' as int + d) as char
  }

  /** The decimal digits of `n`, without leading zeros. */
  function Digits(n: nat): (s: string)
    ensures |s| >= 1 && AllDigits(s)
    ensures |s| > 1 ==> s[0] != '0'
  {
    if n < 10 then [DigitChar(n)] else Digits(n / 10) + [DigitChar(n % 10)]
  }

  /** `str(n)`. */
  function Str(n: int): string
  {
    if n < 0 then "-" + Digits(-n) else Digits(n)
  }

  /** The digits read back give the number: `int(str(n)) == n`. */
  lemma {:induction false} DigitsRoundTrip(n: nat)
    ensures DigitsValue(Digits(n)) == n
  {
    if n >= 10 {
      DigitsRoundTrip(n / 10);
      var s := Digits(n);
      assert s[..|s| - 1] == Digits(n / 10);
    }
  }

  /** `n` has at most `k` digits exactly when it is below `10^k`. */
  lemma {:induction false} DigitsLength(n: nat, k: nat)
    requires k >= 1
    ensures |Digits(n)| <= k <==> n < Power10(k)
  {
    if n >= 10 && k > 1 {
      DigitsLength(n / 10, k - 1);
    }
  }

  /** The digit string with a comma before every group of three, counted
      from the right. */
  function Grouped(d: string): string
  {
    if |d| <= 3 then d else Grouped(d[..|d| - 3]) + "," + d[|d| - 3..]
  }

  /** `f"{n:,}"`. */
  function PrintInt(n: int): string
  {
    if n < 0 then "-" + Grouped(Digits(-n)) else Grouped(Digits(n))
  }

  /** The groups of three, from the right; the first may be shorter. */
  function Chunks(d: string): (chunks: seq<string>)
    ensures |chunks| >= 1
  {
    if |d| <= 3 then [d] else Chunks(d[..|d| - 3]) + [d[|d| - 3..]]
  }

  /** `s.replace(",", "")`. */
  function Uncomma(s: string): (t: string)
  {
    if s == [] then [] else (if s[0] == ',' then [] else [s[0]]) + Uncomma(s[1..])
  }

  lemma {:induction false} UncommaConcat(a: string, b: string)
    ensures Uncomma(a + b) == Uncomma(a) + Uncomma(b)
  {
    if a == [] {
      assert a + b == b;
    } else {
      assert (a + b)[1..] == a[1..] + b;
      UncommaConcat(a[1..], b);
    }
  }

  lemma {:induction false} UncommaDigits(d: string)
    requires AllDigits(d)
    ensures Uncomma(d) == d
  {
    if d != [] {
      UncommaDigits(d[1..]);
    }
  }

  lemma {:induction false} GroupedUncomma(d: string)
    requires AllDigits(d)
    ensures Uncomma(Grouped(d)) == d
    decreases |d|
  {
    if |d| <= 3 {
      UncommaDigits(d);
    } else {
      var a, b := d[..|d| - 3], d[|d| - 3..];
      GroupedUncomma(a);
      UncommaConcat(Grouped(a) + ",", b);
      UncommaConcat(Grouped(a), ",");
      UncommaDigits(b);
      assert a + b == d;
    }
  }

  /** Splitting at the commas gives the groups of three. */
  lemma {:induction false} GroupedSplits(d: string)
    requires AllDigits(d)
    ensures Split(Grouped(d), ',') == Chunks(d)
    decreases |d|
  {
    if |d| <= 3 {
      SplitWithoutSeparator(d, ',');
    } else {
      var a, b := d[..|d| - 3], d[|d| - 3..];
      GroupedSplits(a);
      SplitWithoutSeparator(b, ',');
      SplitAround(Grouped(a), b, ',');
    }
  }

  /** The groups: digits only, the first one to three of them, every other
      exactly three, and together the whole digit string. */
  lemma {:induction false} ChunksShape(d: string)
    requires AllDigits(d) && |d| >= 1
    ensures var c := Chunks(d);
      && 1 <= |c[0]| <= 3
      && (forall i :: 1 <= i < |c| ==> |c[i]| == 3)
      && (forall i :: 0 <= i < |c| ==> AllDigits(c[i]))
      && Concat(c) == d
    decreases |d|
  {
    if |d| > 3 {
      var a, b := d[..|d| - 3], d[|d| - 3..];
      var ca := Chunks(a);
      ChunksShape(a);
      var c := ca + [b];
      assert Chunks(d) == c;
      assert c[0] == ca[0];
      forall i | 0 <= i < |c| ensures AllDigits(c[i]) && (i >= 1 ==> |c[i]| == 3) {
        if i < |ca| {
          assert c[i] == ca[i];
        } else {
          assert c[i] == b;
          assert forall j :: 0 <= j < |b| ==> b[j] == d[|d| - 3 + j];
        }
      }
      ConcatSnoc(ca, b);
      assert a + b == d;
    } else {
      assert Chunks(d) == [d];
      assert Concat([d]) == d + Concat([]);
    }
  }

  function Concat(pieces: seq<string>): string
  {
    if pieces == [] then [] else pieces[0] + Concat(pieces[1..])
  }

  lemma {:induction false} ConcatSnoc(pieces: seq<string>, x: string)
    ensures Concat(pieces + [x]) == Concat(pieces) + x
  {
    if pieces != [] {
      assert (pieces + [x])[1..] == pieces[1..] + [x];
      ConcatSnoc(pieces[1..], x);
    }
  }

  /** Removing the commas gives `str(n)` back. */
  lemma PrintIntUncomma(n: int)
    ensures Uncomma(PrintInt(n)) == Str(n)
  {
    var m := if n < 0 then -n else n;
    GroupedUncomma(Digits(m));
    if n < 0 {
      UncommaConcat("-", Grouped(Digits(m)));
    }
  }

  /** A leading '-' exactly for a negative number; after it, the groups of
      three digits from the right, the leading group of one to three
      digits, with no leading zero. */
  lemma PrintIntShape(n: int)
    ensures var m := if n < 0 then -n else n;
      var body := if n < 0 then PrintInt(n)[1..] else PrintInt(n);
      && (n < 0 <==> |PrintInt(n)| > 0 && PrintInt(n)[0] == '-')
      && Split(body, ',') == Chunks(Digits(m))
      && Concat(Split(body, ',')) == Digits(m)
      && DigitsValue(Concat(Split(body, ','))) == m
  {
    var m := if n < 0 then -n else n;
    GroupedSplits(Digits(m));
    ChunksShape(Digits(m));
    DigitsRoundTrip(m);
    if n >= 0 {
      assert Grouped(Digits(m))[0] != '-' by {
        GroupedStart(Digits(m));
      }
    } else {
      assert PrintInt(n)[1..] == Grouped(Digits(m));
    }
  }

  lemma {:induction false} GroupedStart(d: string)
    requires |d| >= 1
    ensures |Grouped(d)| >= 1 && Grouped(d)[0] == d[0]
    decreases |d|
  {
    if |d| > 3 {
      GroupedStart(d[..|d| - 3]);
    }
  }

  /** A comma appears exactly when `|n| >= 1000`; below that the output is
      `str(n)`. */
  lemma NoCommaBelowThousand(n: int)
    ensures (',' in PrintInt(n)) <==> n <= -1000 || n >= 1000
    ensures -1000 < n < 1000 ==> PrintInt(n) == Str(n)
  {
    var m := if n < 0 then -n else n;
    DigitsLength(m, 3);
    var d := Digits(m);
    if |d| > 3 {
      var a := d[..|d| - 3];
      assert Grouped(d) == Grouped(a) + "," + d[|d| - 3..];
      assert Grouped(d)[|Grouped(a)|] == ',';
      assert ',' in PrintInt(n) by {
        if n < 0 {
          assert PrintInt(n)[1 + |Grouped(a)|] == ',';
        }
      }
    } else {
      assert ',' !in d;
    }
  }

  /** `s.replace("_", " ")`. */
  function Replace(s: string, from: char, to: char): (t: string)
    ensures |t| == |s|
    ensures forall i :: 0 <= i < |s| ==> t[i] == if s[i] == from then to else s[i]
  {
    if s == [] then [] else [if s[0] == from then to else s[0]] + Replace(s[1..], from, to)
  }

  /** `str.title()` from a position whose predecessor is, or is not, a
      letter: a letter after a letter is lower-cased, any other letter
      upper-cased, and every other character kept. */
  function TitleFrom(s: string, afterLetter: bool): (t: string)
    ensures |t| == |s|
  {
    if s == [] then []
    else
      var c := if !IsAlpha(s[0]) then s[0] else if afterLetter then ToLower(s[0]) else ToUpper(s[0]);
      [c] + TitleFrom(s[1..], IsAlpha(s[0]))
  }

  function Title(s: string): string
  {
    TitleFrom(s, false)
  }

  /** `print_str`. */
  function PrintStr(s: string): string
  {
    Title(Replace(s, '_', ' '))
  }

  /** What `title` does at each position, in terms of the input alone. */
  predicate TitledAt(s: string, t: string, i: nat)
    requires i < |s| && i < |t|
  {
    if !IsAlpha(s[i]) then t[i] == s[i]
    else if i > 0 && IsAlpha(s[i - 1]) then t[i] == ToLower(s[i])
    else t[i] == ToUpper(s[i])
  }

  lemma {:induction false} TitleFromAt(s: string, afterLetter: bool, i: nat)
    requires i < |s|
    ensures TitleFrom(s, afterLetter)[i] ==
      if !IsAlpha(s[i]) then s[i]
      else if (if i == 0 then afterLetter else IsAlpha(s[i - 1])) then ToLower(s[i])
      else ToUpper(s[i])
  {
    if i > 0 {
      TitleFromAt(s[1..], IsAlpha(s[0]), i - 1);
    }
  }

  /** `print_str` keeps the length, turns each '_' into ' ' and leaves no
      '_'; a letter comes out upper-case exactly when it is first or
      follows a character that is not a letter. */
  lemma PrintStrAt(s: string)
    ensures |PrintStr(s)| == |s|
    ensures forall i :: 0 <= i < |s| ==>
      && (s[i] == '_' ==> PrintStr(s)[i] == ' ')
      && PrintStr(s)[i] != '_'
      && (IsAlpha(s[i]) ==> (IsUpper(PrintStr(s)[i]) <==> i == 0 || !IsAlpha(s[i - 1])))
      && TitledAt(Replace(s, '_', ' '), PrintStr(s), i)
  {
    var r, t := Replace(s, '_', ' '), PrintStr(s);
    forall i | 0 <= i < |s|
      ensures && (s[i] == '_' ==> t[i] == ' ') && t[i] != '_'
              && (IsAlpha(s[i]) ==> (IsUpper(t[i]) <==> i == 0 || !IsAlpha(s[i - 1])))
              && TitledAt(r, t, i)
    {
      TitleFromAt(r, false, i);
      assert IsAlpha(r[i]) <==> IsAlpha(s[i]);
      if i > 0 {
        assert IsAlpha(r[i - 1]) <==> IsAlpha(s[i - 1]);
      }
    }
  }

  /** Formatting a formatted label changes nothing. */
  lemma PrintStrIdempotent(s: string)
    ensures PrintStr(PrintStr(s)) == PrintStr(s)
  {
    var r, t := Replace(s, '_', ' '), PrintStr(s);
    PrintStrAt(s);
    PrintStrAt(t);
    assert Replace(t, '_', ' ') == t;
    forall i | 0 <= i < |t| ensures IsAlpha(t[i]) <==> IsAlpha(r[i]) {
      assert TitledAt(r, t, i);
    }
    forall i | 0 <= i < |t| ensures PrintStr(t)[i] == t[i] {
      assert TitledAt(r, t, i) && TitledAt(t, PrintStr(t), i);
    }
  }

  /** The examples: an apostrophe and a digit end a letter run. */
  lemma ApostropheExample()
    ensures PrintStr("it's") == "It'S"
  {
    var s := "it's";
    assert Replace(s, '_', ' ') == s;
    var t := PrintStr(s);
    forall i | 0 <= i < 4 ensures t[i] == "It'S"[i] {
      TitleFromAt(s, false, i);
    }
  }

  lemma DigitExample()
    ensures PrintStr("1st") == "1St"
  {
    var s := "1st";
    assert Replace(s, '_', ' ') == s;
    var t := PrintStr(s);
    forall i | 0 <= i < 3 ensures t[i] == "1St"[i] {
      TitleFromAt(s, false, i);
    }
  }
}
