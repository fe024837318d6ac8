/** The string operations the source uses: `trim`, `split`, `join`, `includes`,
    `toLowerCase` (ASCII letters only), the comma-list normalisation of
    requirements, decimal rendering of numbers, and SQL string-literal quoting. */
module Text {
  import opened Common
  import opened Seqs

  // ---------------------------------------------------------------- trim

  /** The characters `String.prototype.trim` removes: ECMAScript's WhiteSpace
      and LineTerminator code points. */
  const Whitespace: set<char> :=
    {' ', '\t', '\n', '\U{000B}', '\U{000C}', '\r', '\U{00A0}', '\U{1680}',
     '\U{2000}', '\U{2001}', '\U{2002}', '\U{2003}', '\U{2004}', '\U{2005}', '\U{2006}',
     '\U{2007}', '\U{2008}', '\U{2009}', '\U{200A}',
     '\U{2028}', '\U{2029}', '\U{202F}', '\U{205F}', '\U{3000}', '\U{FEFF}'}

  predicate IsWhitespace(c: char) {
    c in Whitespace
  }

  /** Neither end of `s` is whitespace. */
  predicate IsTrimmed(s: string) {
    s == [] || (!IsWhitespace(s[0]) && !IsWhitespace(s[|s| - 1]))
  }

  /** `s.trimStart()`: the suffix left after leading whitespace. */
  function TrimStart(s: string): (r: string)
    ensures |r| <= |s| && r == s[|s| - |r|..]
    ensures r == [] || !IsWhitespace(r[0])
    ensures forall i :: 0 <= i < |s| - |r| ==> IsWhitespace(s[i])
  {
    if s != [] && IsWhitespace(s[0]) then
      var r := TrimStart(s[1..]);
      DropOneMore(s, r);
      r
    else s
  }

  /** A suffix of `s[1..]` behind whitespace is a suffix of `s` behind
      whitespace when `s[0]` is whitespace too. */
  lemma DropOneMore(s: string, r: string)
    requires s != [] && IsWhitespace(s[0])
    requires |r| <= |s| - 1 && r == s[1..][|s| - 1 - |r|..]
    requires forall i :: 0 <= i < |s| - 1 - |r| ==> IsWhitespace(s[1..][i])
    ensures r == s[|s| - |r|..]
    ensures forall i :: 0 <= i < |s| - |r| ==> IsWhitespace(s[i])
  {
    forall i | 1 <= i < |s| - |r| ensures IsWhitespace(s[i]) {
      assert s[i] == s[1..][i - 1];
    }
  }

  /** `s.trimEnd()`: the prefix left before trailing whitespace. */
  function TrimEnd(s: string): (r: string)
    ensures |r| <= |s| && r == s[..|r|]
    ensures r == [] || !IsWhitespace(r[|r| - 1])
    ensures forall i :: |r| <= i < |s| ==> IsWhitespace(s[i])
  {
    if s != [] && IsWhitespace(s[|s| - 1]) then TrimEnd(s[..|s| - 1]) else s
  }

  /** `s.trim()`: what is left of `s` once the whitespace at both ends is
      cut off. `r` sits at offset `k`, everything before it and everything
      after it is whitespace, and `r` itself neither starts nor ends with
      whitespace. */
  function Trim(s: string): (r: string)
    ensures IsTrimmed(r)
    ensures IsTrimmed(s) ==> r == s
    ensures |r| <= |s|
  {
    var t := TrimStart(s);
    var r := TrimEnd(t);
    assert r == [] || r[0] == t[0];
    r
  }

  /** What `Trim` cuts off is whitespace only: the result is the slice of `s`
      at some offset `k`, everything before `k` is whitespace, and so is
      everything after the slice. */
  lemma TrimIsSlice(s: string) returns (k: nat, r: string)
    ensures r == Trim(s)
    ensures k + |r| <= |s| && r == s[k..k + |r|]
    ensures forall i :: 0 <= i < k ==> IsWhitespace(s[i])
    ensures forall i :: k + |r| <= i < |s| ==> IsWhitespace(s[i])
  {
    var t := TrimStart(s);
    r := TrimEnd(t);
    TrimmedSlice(s, t, r);
    TrimHalves(s);
    k := |s| - |t|;
  }

  /** `trim` is `trimEnd` after `trimStart`. */
  lemma TrimHalves(s: string)
    ensures Trim(s) == TrimEnd(TrimStart(s))
  {
  }

  /** Text that does not start with whitespace is left alone by `trimStart`. */
  lemma TrimStartKeeps(s: string)
    requires s == [] || !IsWhitespace(s[0])
    ensures TrimStart(s) == s
  {
  }

  /** Text that does not end with whitespace is left alone by `trimEnd`. */
  lemma TrimEndKeeps(s: string)
    requires s == [] || !IsWhitespace(s[|s| - 1])
    ensures TrimEnd(s) == s
  {
  }

  /** Trimming the end of the suffix `t` of `s` leaves a slice of `s` followed
      by whitespace only. */
  lemma TrimmedSlice(s: string, t: string, r: string)
    requires |t| <= |s| && t == s[|s| - |t|..]
    requires forall i :: 0 <= i < |s| - |t| ==> IsWhitespace(s[i])
    requires |r| <= |t| && r == t[..|r|]
    requires forall i :: |r| <= i < |t| ==> IsWhitespace(t[i])
    ensures var k := |s| - |t|;
      && k + |r| <= |s| && r == s[k..k + |r|]
      && (forall i :: 0 <= i < k ==> IsWhitespace(s[i]))
      && (forall i :: k + |r| <= i < |s| ==> IsWhitespace(s[i]))
  {
    var k := |s| - |t|;
    forall i | k + |r| <= i < |s| ensures IsWhitespace(s[i]) {
      assert s[i] == t[i - k];
    }
  }

  // ---------------------------------------------------------------- split and join

  /** `s.indexOf(c)`: the first position of `c`, or -1. */
  function IndexOf(s: string, c: char): (k: int)
    ensures -1 <= k < |s|
    ensures k >= 0 ==> s[k] == c && c !in s[..k]
    ensures k < 0 ==> c !in s
  {
    if s == [] then -1
    else if s[0] == c then 0
    else var k := IndexOf(s[1..], c); if k < 0 then -1 else k + 1
  }

  /** `s.split(sep)` for a one-character separator: always at least one piece,
      and no piece contains the separator. */
  function Split(s: string, sep: char): (parts: seq<string>)
    ensures |parts| >= 1
    ensures forall i :: 0 <= i < |parts| ==> sep !in parts[i]
    decreases |s|
  {
    var k := IndexOf(s, sep);
    if k < 0 then [s]
    else
      var rest := Split(s[k + 1..], sep);
      ConsPieces(s[..k], rest, sep);
      [s[..k]] + rest
  }

  /** Prepending a piece free of `sep` to pieces free of it keeps them all free of it. */
  lemma ConsPieces(head: string, rest: seq<string>, sep: char)
    requires sep !in head
    requires forall i :: 0 <= i < |rest| ==> sep !in rest[i]
    ensures forall i :: 0 <= i < |rest| + 1 ==> sep !in ([head] + rest)[i]
  {
    forall i | 0 <= i < |rest| + 1 ensures sep !in ([head] + rest)[i] {
      if i > 0 {
        assert ([head] + rest)[i] == rest[i - 1];
      }
    }
  }

  /** `parts.join(sep)`. */
  function Join(parts: seq<string>, sep: string): string {
    if parts == [] then ""
    else if |parts| == 1 then parts[0]
    else parts[0] + sep + Join(parts[1..], sep)
  }

  /** A join is empty for no parts, is the part itself for one, and otherwise
      starts with the first part and ends with the last. */
  lemma {:induction false} JoinEnds(parts: seq<string>, sep: string)
    ensures parts == [] ==> Join(parts, sep) == ""
    ensures |parts| == 1 ==> Join(parts, sep) == parts[0]
    ensures parts != [] ==> parts[0] <= Join(parts, sep)
    ensures parts != [] ==> var r, last := Join(parts, sep), parts[|parts| - 1];
      |last| <= |r| && r[|r| - |last|..] == last
  {
    if |parts| >= 2 {
      JoinEnds(parts[1..], sep);
      var rest := Join(parts[1..], sep);
      var r := parts[0] + sep + rest;
      assert r[|parts[0] + sep|..] == rest;
      assert r[..|parts[0]|] == parts[0];
    }
  }

  /** Splitting at the first separator. */
  lemma SplitAt(a: string, b: string, sep: char)
    requires sep !in a
    ensures Split(a + [sep] + b, sep) == [a] + Split(b, sep)
  {
    var s := a + [sep] + b;
    assert s[..|a|] == a;
    assert s[|a| + 1..] == b;
    assert s[|a|] == sep;
  }

  /** Splitting a joined list gives the list back when no piece holds the separator. */
  lemma {:induction false} SplitJoin(parts: seq<string>, sep: char)
    requires |parts| >= 1
    requires forall i :: 0 <= i < |parts| ==> sep !in parts[i]
    ensures Split(Join(parts, [sep]), sep) == parts
  {
    if |parts| == 1 {
      assert IndexOf(parts[0], sep) < 0;
    } else {
      SplitJoin(parts[1..], sep);
      SplitAt(parts[0], Join(parts[1..], [sep]), sep);
      assert [parts[0]] + parts[1..] == parts;
    }
  }

  /** Splitting a join followed by a separator and more text gives the parts
      and then the pieces of that text. */
  lemma {:induction false} SplitJoinThen(parts: seq<string>, sep: char, b: string)
    requires |parts| >= 1
    requires forall i :: 0 <= i < |parts| ==> sep !in parts[i]
    ensures Split(Join(parts, [sep]) + [sep] + b, sep) == parts + Split(b, sep)
  {
    if |parts| == 1 {
      SplitAt(parts[0], b, sep);
    } else {
      var rest := Join(parts[1..], [sep]);
      var tail := rest + [sep] + b;
      assert Join(parts, [sep]) == parts[0] + [sep] + rest;
      Regroup4(parts[0], [sep], rest, b);
      SplitAt(parts[0], tail, sep);
      SplitJoinThen(parts[1..], sep, b);
      ConsAppend(parts, Split(b, sep));
    }
  }

  /** A heading and a join, each behind a separator and the whole closed by
      one, split into an empty piece, the heading, the parts and an empty piece. */
  lemma SplitFramed(heading: string, parts: seq<string>, sep: char)
    requires sep !in heading
    requires |parts| >= 1
    requires forall i :: 0 <= i < |parts| ==> sep !in parts[i]
    ensures Split([sep] + heading + [sep] + Join(parts, [sep]) + [sep], sep) == ["", heading] + parts + [""]
  {
    var j := Join(parts, [sep]);
    var inner := j + [sep] + "";
    var middle := heading + [sep] + inner;
    Frame(sep, heading, j);
    SplitAt("", middle, sep);
    SplitAt(heading, inner, sep);
    SplitJoinThen(parts, sep, "");
    assert IndexOf("", sep) < 0;
    assert Split(inner, sep) == parts + [""];
    assert Split(middle, sep) == [heading] + (parts + [""]);
    FrameList(heading, parts);
  }

  /** Regrouping the framed text around its separators. */
  lemma Frame(c: char, h: string, j: string)
    ensures [c] + h + [c] + j + [c] == "" + [c] + (h + [c] + (j + [c] + ""))
  {
  }

  /** Regrouping the framed list of pieces. */
  lemma FrameList(h: string, parts: seq<string>)
    ensures [""] + ([h] + (parts + [""])) == ["", h] + parts + [""]
  {
  }

  // ---------------------------------------------------------------- comma lists

  /** `s.trim()` applied to every piece. */
  function TrimAll(parts: seq<string>): (r: seq<string>)
    ensures |r| == |parts|
    ensures forall i :: 0 <= i < |r| ==> r[i] == Trim(parts[i])
  {
    seq(|parts|, i requires 0 <= i < |parts| => Trim(parts[i]))
  }

  /** `s.split(',').map(r => r.trim()).filter(r => r)`: the normalisation applied
      to a requirements field typed as one comma-separated string. */
  function CommaList(s: string): (r: seq<string>)
    ensures forall i :: 0 <= i < |r| ==> r[i] != "" && IsTrimmed(r[i]) && ',' !in r[i]
    ensures SubsequenceOf(r, TrimAll(Split(s, ',')))
    ensures forall x :: multiset(r)[x] == if x == "" then 0 else multiset(TrimAll(Split(s, ',')))[x]
    ensures forall k :: 0 <= k < |Split(s, ',')| && Trim(Split(s, ',')[k]) != "" ==> Trim(Split(s, ',')[k]) in r
  {
    TrimAllNoNewChars(Split(s, ','), ',');
    KeepIsSubsequence(TrimAll(Split(s, ',')), NonEmpty);
    KeepTrimmedComplete(Split(s, ','));
    KeepCounts(TrimAll(Split(s, ',')), NonEmpty);
    Keep(TrimAll(Split(s, ',')), NonEmpty)
  }

  /** Every piece that is not blank survives trimming and the filter. */
  lemma KeepTrimmedComplete(parts: seq<string>)
    ensures forall k :: 0 <= k < |parts| && Trim(parts[k]) != "" ==> Trim(parts[k]) in Keep(TrimAll(parts), NonEmpty)
  {
    forall k | 0 <= k < |parts| && Trim(parts[k]) != ""
      ensures Trim(parts[k]) in Keep(TrimAll(parts), NonEmpty)
    {
      assert TrimAll(parts)[k] == Trim(parts[k]);
      KeepComplete(TrimAll(parts), NonEmpty, Trim(parts[k]));
    }
  }

  /** The filter `r => r` on strings. */
  predicate NonEmpty(x: string) {
    x != ""
  }

  /** A text whose comma-separated pieces are already non-empty and trimmed
      normalises to exactly those pieces. */
  lemma CommaListOfPieces(s: string, items: seq<string>)
    requires Split(s, ',') == items
    requires forall i :: 0 <= i < |items| ==> items[i] != "" && IsTrimmed(items[i])
    ensures CommaList(s) == items
  {
    var trimmed := TrimAll(items);
    assert trimmed == items;
    KeepLength(items, NonEmpty);
  }

  /** Trimming every piece introduces no character into any of them. */
  lemma TrimAllNoNewChars(parts: seq<string>, c: char)
    requires forall i :: 0 <= i < |parts| ==> c !in parts[i]
    ensures forall i :: 0 <= i < |parts| ==> c !in TrimAll(parts)[i]
  {
    forall i | 0 <= i < |parts| ensures c !in TrimAll(parts)[i] {
      TrimNoNewChars(parts[i], c);
    }
  }

  /** Trimming never introduces a character. */
  lemma TrimNoNewChars(s: string, c: char)
    requires c !in s
    ensures c !in Trim(s)
  {
    var t := TrimStart(s);
    NotInSlice(s, |s| - |t|, |s|, c);
    var r := TrimEnd(t);
    NotInSlice(t, 0, |r|, c);
  }

  /** A character absent from `s` is absent from every slice of it. */
  lemma NotInSlice(s: string, lo: nat, hi: nat, c: char)
    requires lo <= hi <= |s| && c !in s
    ensures c !in s[lo..hi]
  {
    forall i | 0 <= i < hi - lo ensures s[lo..hi][i] != c {
      assert s[lo..hi][i] == s[lo + i];
    }
  }

  /** A leading space is trimmed away from an already trimmed, non-empty item. */
  lemma TrimSpaced(x: string)
    requires x != "" && IsTrimmed(x)
    ensures Trim(" " + x) == x
  {
    var y := " " + x;
    assert y[0] == ' ' && y[1..] == x;
    assert TrimStart(y) == TrimStart(x);
    TrimStartKeeps(x);
    TrimEndKeeps(x);
    TrimHalves(y);
  }

  /** A list of non-empty, trimmed, comma-free items survives being joined with
      `", "` and normalised as a comma list. */
  lemma CommaListJoin(items: seq<string>)
    requires forall i :: 0 <= i < |items| ==> items[i] != "" && IsTrimmed(items[i]) && ',' !in items[i]
    ensures CommaList(Join(items, ", ")) == items
  {
    if items == [] {
      assert Split("", ',') == [""];
      assert TrimAll([""]) == [""];
      assert Keep([""], NonEmpty) == [];
    } else {
      TrimmedPieces(items);
      KeepLength(items, NonEmpty);
    }
  }

  /** Trimming the comma-separated pieces of `items.join(", ")` gives `items` back. */
  lemma TrimmedPieces(items: seq<string>)
    requires items != []
    requires forall i :: 0 <= i < |items| ==> items[i] != "" && IsTrimmed(items[i]) && ',' !in items[i]
    ensures TrimAll(Split(Join(items, ", "), ',')) == items
  {
    var joined := Join(items, ", ");
    assert "" + joined == joined;
    SplitJoinSpaced("", items);
    TrimSpacedAll(items, Split(joined, ','));
  }

  /** Trimming pieces that are the items, all but the first behind one space. */
  lemma TrimSpacedAll(items: seq<string>, parts: seq<string>)
    requires forall i :: 0 <= i < |items| ==> items[i] != "" && IsTrimmed(items[i])
    requires |parts| == |items| && parts != [] && parts[0] == items[0]
    requires forall i :: 1 <= i < |items| ==> parts[i] == " " + items[i]
    ensures TrimAll(parts) == items
  {
    var pieces := TrimAll(parts);
    forall i | 0 <= i < |items| ensures pieces[i] == items[i] {
      if i > 0 {
        TrimSpaced(items[i]);
      }
    }
  }

  /** The pieces of `lead + items.join(", ")` split at commas: the first item
      carries `lead`, every later one a leading space. */
  lemma {:induction false} SplitJoinSpaced(lead: string, items: seq<string>)
    requires items != []
    decreases items
    requires ',' !in lead
    requires forall i :: 0 <= i < |items| ==> ',' !in items[i]
    ensures var parts := Split(lead + Join(items, ", "), ',');
      |parts| == |items| && parts[0] == lead + items[0] &&
      forall i :: 1 <= i < |items| ==> parts[i] == " " + items[i]
  {
    if |items| == 1 {
      assert ',' !in lead + items[0];
      assert IndexOf(lead + items[0], ',') < 0;
    } else {
      var rest := Join(items[1..], ", ");
      JoinSpacedCons(lead, items);
      assert ',' !in lead + items[0];
      SplitAt(lead + items[0], " " + rest, ',');
      SplitJoinSpaced(" ", items[1..]);
      ShiftPieces(lead + items[0], Split(" " + rest, ','), items);
    }
  }

  /** Pieces for `items[1..]` behind a first piece are pieces for `items`. */
  lemma ShiftPieces(first: string, tail: seq<string>, items: seq<string>)
    requires |items| >= 2 && |tail| == |items| - 1
    requires tail[0] == " " + items[1..][0]
    requires forall i :: 1 <= i < |items[1..]| ==> tail[i] == " " + items[1..][i]
    ensures var parts := [first] + tail;
      |parts| == |items| && parts[0] == first &&
      forall i :: 1 <= i < |items| ==> parts[i] == " " + items[i]
  {
    var parts := [first] + tail;
    forall i | 1 <= i < |items| ensures parts[i] == " " + items[i] {
      assert parts[i] == tail[i - 1];
      assert items[1..][i - 1] == items[i];
    }
  }

  /** `items.join(", ")` behind `lead`, cut at its first comma. */
  lemma JoinSpacedCons(lead: string, items: seq<string>)
    requires |items| >= 2
    ensures lead + Join(items, ", ") == (lead + items[0]) + [','] + (" " + Join(items[1..], ", "))
  {
    Regroup(lead, items[0], Join(items[1..], ", "));
  }

  /** Moving the comma of a `", "` separator to the left operand. */
  lemma Regroup(lead: string, x: string, rest: string)
    ensures lead + (x + ", " + rest) == (lead + x) + [','] + (" " + rest)
  {
    var left := lead + (x + ", " + rest);
    var right := (lead + x) + [','] + (" " + rest);
    assert |left| == |right|;
    forall i | 0 <= i < |left| ensures left[i] == right[i] {
      if i < |lead| + |x| {
      } else if i == |lead| + |x| {
      } else {
      }
    }
  }

  // ---------------------------------------------------------------- case-insensitive search

  /** `toLowerCase` on one character, restricted to the ASCII letters. */
  function LowerChar(c: char): char {
    if 'A' <= c <= 'Z' then (c as int + 32) as char else c
  }

  /** `toUpperCase` on one character, restricted to the ASCII letters. */
  function UpperChar(c: char): char {
    if 'a' <= c <= 'z' then (c as int - 32) as char else c
  }

  /** `s.toLowerCase()` (ASCII letters only). */
  function Lower(s: string): (r: string)
    ensures |r| == |s|
    ensures forall i :: 0 <= i < |s| ==> r[i] == LowerChar(s[i])
  {
    seq(|s|, i requires 0 <= i < |s| => LowerChar(s[i]))
  }

  /** `s.toUpperCase()` (ASCII letters only). */
  function Upper(s: string): (r: string)
    ensures |r| == |s|
    ensures forall i :: 0 <= i < |s| ==> r[i] == UpperChar(s[i])
  {
    seq(|s|, i requires 0 <= i < |s| => UpperChar(s[i]))
  }

  /** Lower-casing forgets whether a string was upper-cased first. */
  lemma LowerUpper(s: string)
    ensures Lower(Upper(s)) == Lower(s)
  {
  }

  /** `hay.includes(needle)`: `needle` occurs at some position of `hay`; the empty
      string occurs everywhere. */
  predicate Contains(hay: string, needle: string)
    decreases |hay|
  {
    needle <= hay || (hay != [] && Contains(hay[1..], needle))
  }

  /** An occurrence of `needle` at offset `k` of `hay` makes `Contains` hold. */
  lemma {:induction false} ContainsAt(hay: string, needle: string, k: nat)
    requires k + |needle| <= |hay| && hay[k..k + |needle|] == needle
    ensures Contains(hay, needle)
    decreases k
  {
    if k == 0 {
      assert needle <= hay;
    } else {
      assert hay[1..][k - 1..k - 1 + |needle|] == needle;
      ContainsAt(hay[1..], needle, k - 1);
    }
  }

  /** `Contains` holds only where `needle` occurs: the offset of an occurrence. */
  lemma {:induction false} ContainsOccurs(hay: string, needle: string) returns (k: nat)
    requires Contains(hay, needle)
    ensures k + |needle| <= |hay| && hay[k..k + |needle|] == needle
    decreases |hay|
  {
    if needle <= hay {
      k := 0;
    } else {
      var j := ContainsOccurs(hay[1..], needle);
      assert hay[1..][j..j + |needle|] == hay[j + 1..j + 1 + |needle|];
      k := j + 1;
    }
  }

  // ---------------------------------------------------------------- decimal numbers

  /** The decimal digits of `n`, as `String(n)` renders a non-negative integer. */
  function Decimal(n: nat): (r: string)
    ensures r != []
    ensures forall i :: 0 <= i < |r| ==> '0' <= r[i] <= '9'
    ensures r[0] == '0' <==> n == 0
    ensures n == 0 ==> r == "0"
  {
    if n < 10 then [('0' as int + n) as char]
    else Decimal(n / 10) + [('0' as int + n % 10) as char]
  }

  /** Reads a string of decimal digits back as a number. */
  function DigitsValue(s: string): int
    requires forall i :: 0 <= i < |s| ==> '0' <= s[i] <= '9'
  {
    if s == [] then 0 else 10 * DigitsValue(s[..|s| - 1]) + (s[|s| - 1] as int - '0' as int)
  }

  /** `Decimal` loses nothing: its digits read back as the number. */
  lemma {:induction false} DecimalValue(n: nat)
    ensures DigitsValue(Decimal(n)) == n
  {
    if n >= 10 {
      DecimalValue(n / 10);
      var d := Decimal(n);
      assert d[..|d| - 1] == Decimal(n / 10);
    }
  }

  // ---------------------------------------------------------------- SQL string literals

  /** `s.replace(/'/g, "''")`: every single quote doubled. */
  function EscapeQuotes(s: string): (r: string)
    ensures |r| == |s| + QuoteCount(s)
  {
    if s == [] then ""
    else (if s[0] == '\'' then "''" else [s[0]]) + EscapeQuotes(s[1..])
  }

  /** The number of single quotes in `s`. */
  function QuoteCount(s: string): nat {
    if s == [] then 0 else (if s[0] == '\'' then 1 else 0) + QuoteCount(s[1..])
  }

  /** Collapses each `''` back to `'` (the inverse of `EscapeQuotes`). */
  function CollapseQuotes(s: string): string
    decreases |s|
  {
    if |s| >= 2 && s[0] == '\'' && s[1] == '\'' then "'" + CollapseQuotes(s[2..])
    else if s == [] then ""
    else [s[0]] + CollapseQuotes(s[1..])
  }

  /** Escaping adds exactly one character per quote, and collapsing undoes it. */
  lemma {:induction false} EscapeQuotesInverse(s: string)
    ensures |EscapeQuotes(s)| == |s| + QuoteCount(s)
    ensures CollapseQuotes(EscapeQuotes(s)) == s
  {
    if s != [] {
      EscapeQuotesInverse(s[1..]);
      var e := EscapeQuotes(s[1..]);
      if s[0] == '\'' {
        assert ("''" + e)[2..] == e;
      } else {
        assert ([s[0]] + e)[1..] == e;
      }
      assert [s[0]] + s[1..] == s;
    }
  }

  /** `'` + escaped text + `'`: the quoted literal the submission query embeds. */
  function SqlQuote(s: string): (q: string)
    ensures |q| == |s| + QuoteCount(s) + 2
    ensures q[0] == '\'' && q[|q| - 1] == '\''
    ensures CollapseQuotes(q[1..|q| - 1]) == s
  {
    EscapeQuotesInverse(s);
    var q := "'" + EscapeQuotes(s) + "'";
    assert q[1..|q| - 1] == EscapeQuotes(s);
    q
  }

  /** How an SQL reader scans the body of a string literal: `''` stands for one
      quote and a lone quote ends the literal. Yields the text read and what
      follows the closing quote, or `None` for an unterminated literal. */
  function ScanLiteral(t: string): Option<(string, string)>
    decreases |t|
  {
    if t == [] then None
    else if t[0] == '\'' then
      if |t| >= 2 && t[1] == '\'' then
        match ScanLiteral(t[2..])
        case None => None
        case Some(p) => Some(("'" + p.0, p.1))
      else Some(("", t[1..]))
    else
      match ScanLiteral(t[1..])
      case None => None
      case Some(p) => Some(([t[0]] + p.0, p.1))
  }

  /** A value quoted with `SqlQuote` reads back as exactly that value, and the
      text after it stays outside the literal (no quote in the value can end
      the literal early), provided the next character is not a quote. */
  lemma {:induction false} SqlQuoteReadsBack(s: string, rest: string)
    requires rest == [] || rest[0] != '\''
    ensures ScanLiteral(EscapeQuotes(s) + "'" + rest) == Some((s, rest))
  {
    if s == [] {
      assert ("" + "'" + rest)[1..] == rest;
    } else {
      SqlQuoteReadsBack(s[1..], rest);
      var tail := EscapeQuotes(s[1..]) + "'" + rest;
      EscapeCons(s, rest);
      if s[0] == '\'' {
        assert ("''" + tail)[2..] == tail;
      } else {
        assert ([s[0]] + tail)[1..] == tail;
      }
      assert [s[0]] + s[1..] == s;
    }
  }

  /** Escaping a non-empty text, followed by more text, is escaping its first
      character followed by the rest. */
  lemma EscapeCons(s: string, rest: string)
    requires s != []
    ensures EscapeQuotes(s) + "'" + rest
         == (if s[0] == '\'' then "''" else [s[0]]) + (EscapeQuotes(s[1..]) + "'" + rest)
  {
    var head := if s[0] == '\'' then "''" else [s[0]];
    assert EscapeQuotes(s) == head + EscapeQuotes(s[1..]);
    Associate(head, EscapeQuotes(s[1..]), "'" + rest);
  }

  /** Regrouping `a c r c b` around its first separator `c`. */
  lemma Regroup4(a: string, c: string, r: string, b: string)
    ensures a + c + r + c + b == a + c + (r + c + b)
  {
  }

  /** A non-empty list is its head before its tail, also when more follows. */
  lemma ConsAppend(parts: seq<string>, more: seq<string>)
    requires parts != []
    ensures [parts[0]] + (parts[1..] + more) == parts + more
  {
    assert parts == [parts[0]] + parts[1..];
  }

  /** Concatenation is associative. */
  lemma Associate(a: string, b: string, c: string)
    ensures (a + b) + c == a + (b + c)
  {
  }
}
