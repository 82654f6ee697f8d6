/** The pieces of Python's runtime that the relay's logic depends on: its values
    (ints, strings, None) and their `str()` and truthiness, the whitespace set of
    `str.strip`, `str.split(' ')`, `''.join`, slicing with clamped and negative
    bounds, and `re.sub` with a pattern that has no metacharacters. */
module Python {

  datatype Option<T> = None | Some(value: T)

  /** A Python value as it appears in the relay's dictionaries and lists.  Status ids
      arrive as ints, the "sent" lists are meant to hold strings, and optional fields
      can be None.  Python's `==` never equates an int with a str, and neither does
      the equality of this datatype. */
  datatype Value = Int(i: int) | Str(s: string) | NoneValue

  /** Python truthiness (`if v:`). */
  predicate Truthy(v: Value) {
    match v
    case Int(i) => i != 0
    case Str(s) => s != ""
    case NoneValue => false
  }

  function Min(a: int, b: int): int { if a <= b then a else b }
  function Max(a: int, b: int): int { if a >= b then a else b }

  // ---------------------------------------------------------------------------
  // str() of numbers and values

  predicate IsDigit(c: char) { '0' <= c <= '9' }

  function DigitChar(d: nat): (c: char)
    requires d < 10
    ensures IsDigit(c)
  {
    ('0' as int + d) as char
  }

  function DigitValue(c: char): nat {
    if IsDigit(c) then c as int - '0' as int else 0
  }

  /** The decimal digits of `n`, as `str(n)` and f-strings print a non-negative int. */
  function NatToString(n: nat): (r: string)
    ensures |r| >= 1
    ensures forall k :: 0 <= k < |r| ==> IsDigit(r[k])
    decreases n
  {
    if n < 10 then [DigitChar(n)] else NatToString(n / 10) + [DigitChar(n % 10)]
  }

  /** Reads a string of decimal digits back as the number it denotes. */
  function ParseNat(s: string): nat
    decreases |s|
  {
    if s == [] then 0 else ParseNat(s[..|s| - 1]) * 10 + DigitValue(s[|s| - 1])
  }

  /** Printing a number and reading it back gives the number. */
  lemma {:induction false} ParseNatToString(n: nat)
    ensures ParseNat(NatToString(n)) == n
    decreases n
  {
    if n >= 10 {
      var s := NatToString(n / 10);
      ParseNatToString(n / 10);
      assert (s + [DigitChar(n % 10)])[..|s|] == s;
    }
  }

  /** Different numbers print differently. */
  lemma NatToStringInjective(a: nat, b: nat)
    requires NatToString(a) == NatToString(b)
    ensures a == b
  {
    ParseNatToString(a);
    ParseNatToString(b);
  }

  function IntToString(i: int): string {
    if i < 0 then "-" + NatToString(-i) else NatToString(i)
  }

  /** Python's `str(v)`. */
  function ToStr(v: Value): string {
    match v
    case Int(i) => IntToString(i)
    case Str(s) => s
    case NoneValue => "None"
  }

  // ---------------------------------------------------------------------------
  // Whitespace, strip()

  /** The characters for which `str.isspace()` holds; `str.strip()` and the regex
      class `\s` use the same set. */
  predicate IsSpace(c: char) {
    c == ' ' || '\t' <= c <= '\r' || '\U{1C}' <= c <= '\U{1F}' || c == '\U{85}' ||
    c == '\U{A0}' || c == '\U{1680}' || '\U{2000}' <= c <= '\U{200A}' ||
    c == '\U{2028}' || c == '\U{2029}' || c == '\U{202F}' || c == '\U{205F}' ||
    c == '\U{3000}'
  }

  predicate AllSpace(s: string) {
    forall k :: 0 <= k < |s| ==> IsSpace(s[k])
  }

  predicate NoSpace(s: string) {
    forall k :: 0 <= k < |s| ==> !IsSpace(s[k])
  }

  /** `s` with every whitespace character removed: what is left of a text once line
      breaks and spacing are disregarded. */
  function NonSpace(s: string): string
    decreases |s|
  {
    if s == [] then [] else (if IsSpace(s[0]) then [] else [s[0]]) + NonSpace(s[1..])
  }

  lemma NonSpaceOfSpace()
    ensures NonSpace(" ") == []
  {
    assert " "[0] == ' ' && " "[1..] == [];
  }

  lemma {:induction false} NonSpaceConcat(a: string, b: string)
    ensures NonSpace(a + b) == NonSpace(a) + NonSpace(b)
    decreases |a|
  {
    if a == [] {
      assert a + b == b;
    } else {
      assert (a + b)[0] == a[0];
      assert (a + b)[1..] == a[1..] + b;
      NonSpaceConcat(a[1..], b);
    }
  }

  lemma {:induction false} NonSpaceOfAllSpace(s: string)
    requires AllSpace(s)
    ensures NonSpace(s) == []
    decreases |s|
  {
    if s != [] {
      NonSpaceOfAllSpace(s[1..]);
    }
  }

  lemma {:induction false} NonSpaceOfNoSpace(s: string)
    requires NoSpace(s)
    ensures NonSpace(s) == s
    decreases |s|
  {
    if s != [] {
      NonSpaceOfNoSpace(s[1..]);
    }
  }

  /** `s.lstrip()`. */
  function LStrip(s: string): string
    decreases |s|
  {
    if s != [] && IsSpace(s[0]) then LStrip(s[1..]) else s
  }

  /** `s.rstrip()`. */
  function RStrip(s: string): string
    decreases |s|
  {
    if s != [] && IsSpace(s[|s| - 1]) then RStrip(s[..|s| - 1]) else s
  }

  /** `s.strip()`. */
  function Strip(s: string): string {
    RStrip(LStrip(s))
  }

  /** `lstrip` keeps the longest suffix that does not start with whitespace. */
  lemma {:induction false} LStripShape(s: string)
    ensures |LStrip(s)| <= |s| && LStrip(s) == s[|s| - |LStrip(s)|..]
    ensures AllSpace(s[..|s| - |LStrip(s)|])
    ensures LStrip(s) != [] ==> !IsSpace(LStrip(s)[0])
    decreases |s|
  {
    if s != [] && IsSpace(s[0]) {
      LStripShape(s[1..]);
      var r := LStrip(s[1..]);
      assert s[1..][|s| - 1 - |r|..] == s[|s| - |r|..];
      var cut := s[..|s| - |r|];
      assert cut == [s[0]] + s[1..][..|s| - 1 - |r|];
      assert forall i :: 1 <= i < |cut| ==> cut[i] == s[1..][..|s| - 1 - |r|][i - 1];
    }
  }

  /** `rstrip` keeps the longest prefix that does not end with whitespace. */
  lemma {:induction false} RStripShape(s: string)
    ensures |RStrip(s)| <= |s| && RStrip(s) == s[..|RStrip(s)|]
    ensures AllSpace(s[|RStrip(s)|..])
    ensures RStrip(s) != [] ==> !IsSpace(RStrip(s)[|RStrip(s)| - 1])
    decreases |s|
  {
    if s != [] && IsSpace(s[|s| - 1]) {
      var init := s[..|s| - 1];
      RStripShape(init);
      var r := RStrip(init);
      assert init[..|r|] == s[..|r|];
      var cut := s[|r|..];
      assert cut == init[|r|..] + [s[|s| - 1]];
      assert forall i :: 0 <= i < |cut| - 1 ==> cut[i] == init[|r|..][i];
    }
  }

  lemma LStripKeeps(s: string)
    ensures NonSpace(LStrip(s)) == NonSpace(s)
    ensures LStrip(s) == [] <==> AllSpace(s)
  {
    LStripShape(s);
    var l := LStrip(s);
    var pre := s[..|s| - |l|];
    assert s == pre + l;
    NonSpaceConcat(pre, l);
    NonSpaceOfAllSpace(pre);
    if l == [] {
      assert s == pre;
    }
  }

  lemma RStripKeeps(s: string)
    ensures NonSpace(RStrip(s)) == NonSpace(s)
    ensures RStrip(s) == [] <==> AllSpace(s)
  {
    RStripShape(s);
    var r := RStrip(s);
    var post := s[|r|..];
    assert s == r + post;
    NonSpaceConcat(r, post);
    NonSpaceOfAllSpace(post);
    if r == [] {
      assert s == post;
    } else if AllSpace(s) {
      assert false;
    }
  }

  /** Stripping removes whitespace only, it is empty exactly when the text is all
      whitespace, and what it keeps neither starts nor ends with whitespace. */
  lemma StripProperties(s: string)
    ensures NonSpace(Strip(s)) == NonSpace(s)
    ensures Strip(s) == [] <==> AllSpace(s)
    ensures Strip(s) != [] ==> !IsSpace(Strip(s)[0]) && !IsSpace(Strip(s)[|Strip(s)| - 1])
  {
    LStripShape(s);
    var l := LStrip(s);
    LStripKeeps(s);
    RStripKeeps(l);
    if AllSpace(l) {
      NonSpaceOfAllSpace(l);
      NonSpaceOfAllSpace(s);
    }
    var r := RStrip(l);
    RStripShape(l);
    if r != [] {
      assert r[0] == l[0];
    }
  }

  // ---------------------------------------------------------------------------
  // int() of a string

  /** The digits of an `int()` literal: decimal digits, with single underscores
      allowed between two digits. */
  predicate Numeral(s: string) {
    s != [] && forall k :: 0 <= k < |s| ==> IsDigit(s[k]) || Joins(s, k)
  }

  /** An underscore between two digits. */
  predicate Joins(s: string, k: int)
    requires 0 <= k < |s|
  {
    s[k] == '_' && 0 < k < |s| - 1 && IsDigit(s[k - 1]) && IsDigit(s[k + 1])
  }

  /** A numeral with its underscores dropped. */
  function DigitsOf(s: string): string
    decreases |s|
  {
    if s == [] then [] else (if s[0] == '_' then [] else [s[0]]) + DigitsOf(s[1..])
  }

  /** `int(s)` for a string: surrounding whitespace is ignored, then an optional
      sign and a numeral; `None` where `int` raises `ValueError`. */
  function ParseInt(s: string): Option<int> {
    var t := Strip(s);
    if t != [] && (t[0] == '-' || t[0] == '+') && Numeral(t[1..]) then
      var n: int := ParseNat(DigitsOf(t[1..]));
      Some(if t[0] == '-' then -n else n)
    else if Numeral(t) then Some(ParseNat(DigitsOf(t)))
    else None
  }

  /** A numeral starts with a digit. */
  lemma NumeralStartsWithDigit(s: string)
    ensures Numeral(s) ==> IsDigit(s[0])
  {
  }

  /** Decimal digits alone are a numeral, with nothing to drop. */
  lemma {:induction false} DigitsOfDigits(s: string)
    requires s != [] && forall k :: 0 <= k < |s| ==> IsDigit(s[k])
    ensures Numeral(s) && DigitsOf(s) == s
    decreases |s|
  {
    if |s| > 1 {
      DigitsOfDigits(s[1..]);
    }
  }

  /** A text that neither starts nor ends with whitespace is its own `strip()`. */
  lemma StripUnpadded(s: string)
    requires s != [] && !IsSpace(s[0]) && !IsSpace(s[|s| - 1])
    ensures Strip(s) == s
  {
    assert LStrip(s) == s;
  }

  /** `int(str(n)) == n`: the decimal text of an int, as `json.dump` writes an int
      key, reads back as that int. */
  lemma ParseIntOfToString(n: int)
    ensures ParseInt(IntToString(n)) == Some(n)
  {
    var m: nat := if n < 0 then -n else n;
    var d := NatToString(m);
    DigitsOfDigits(d);
    ParseNatToString(m);
    assert !IsSpace(d[0]) && !IsSpace(d[|d| - 1]);
    if n < 0 {
      var t := "-" + d;
      assert IntToString(n) == t;
      assert t[|t| - 1] == d[|d| - 1];
      StripUnpadded(t);
      assert t[1..] == d;
    } else {
      assert IntToString(n) == d;
      StripUnpadded(d);
      assert d[0] != '-' && d[0] != '+';
    }
  }

  /** A text without a digit is never an int. */
  lemma ParseIntNeedsDigit(s: string)
    requires forall k :: 0 <= k < |s| ==> !IsDigit(s[k])
    ensures ParseInt(s) == None
  {
    var l := LStrip(s);
    LStripShape(s);
    RStripShape(l);
    var t := Strip(s);
    assert forall k :: 0 <= k < |t| ==> t[k] == s[|s| - |l| + k];
    assert t != [] ==> !IsDigit(t[0]);
    NumeralStartsWithDigit(t);
    if t != [] {
      assert |t| > 1 ==> !IsDigit(t[1..][0]);
      NumeralStartsWithDigit(t[1..]);
    }
  }

  // ---------------------------------------------------------------------------
  // split(' '), join

  /** `s.split(' ')`: the pieces between single spaces, empty pieces included, so
      there is always at least one. */
  function SplitOnSpace(s: string): (words: seq<string>)
    ensures |words| >= 1
    ensures forall k :: 0 <= k < |words| ==> ' ' !in words[k]
    decreases |s|
  {
    if s == [] then [""]
    else
      var rest := SplitOnSpace(s[1..]);
      if s[0] == ' ' then [""] + rest else [[s[0]] + rest[0]] + rest[1..]
  }

  /** `sep.join(words)`. */
  function JoinWith(words: seq<string>, sep: string): string
    decreases |words|
  {
    if words == [] then ""
    else if |words| == 1 then words[0]
    else words[0] + sep + JoinWith(words[1..], sep)
  }

  /** Where word `k` starts in `sep.join(words)`. */
  function JoinOffset(words: seq<string>, sep: string, k: nat): nat
    requires k < |words|
    decreases k
  {
    if k == 0 then 0 else |words[0]| + |sep| + JoinOffset(words[1..], sep, k - 1)
  }

  /** A slice of the second half of `a + b`, read from `b`. */
  lemma SliceAfter(a: string, b: string, x: nat, y: nat)
    requires x <= y <= |b|
    ensures (a + b)[|a| + x..|a| + y] == b[x..y]
  {
  }

  /** Every word sits in the joined text at its offset, and the words follow each
      other in order, one separator apart. */
  lemma {:induction false} JoinWithAt(words: seq<string>, sep: string, k: nat)
    requires k < |words|
    ensures JoinOffset(words, sep, k) + |words[k]| <= |JoinWith(words, sep)|
    ensures JoinWith(words, sep)[JoinOffset(words, sep, k)..JoinOffset(words, sep, k) + |words[k]|] == words[k]
    ensures k + 1 < |words| ==> JoinOffset(words, sep, k + 1) == JoinOffset(words, sep, k) + |words[k]| + |sep|
    decreases k
  {
    if |words| > 1 {
      var rest := JoinWith(words[1..], sep);
      var j := words[0] + sep + rest;
      assert JoinWith(words, sep) == j;
      if k == 0 {
        assert j[..|words[0]|] == words[0];
      } else {
        JoinWithAt(words[1..], sep, k - 1);
        var o := JoinOffset(words[1..], sep, k - 1);
        assert words[1..][k - 1] == words[k];
        SliceAfter(words[0] + sep, rest, o, o + |words[k]|);
      }
    }
  }

  /** `' '.join(s.split(' ')) == s`. */
  lemma {:induction false} JoinSplitOnSpace(s: string)
    ensures JoinWith(SplitOnSpace(s), " ") == s
    decreases |s|
  {
    if s != [] {
      var rest := SplitOnSpace(s[1..]);
      JoinSplitOnSpace(s[1..]);
      if s[0] == ' ' {
        assert ([""] + rest)[1..] == rest;
      } else {
        var words := [[s[0]] + rest[0]] + rest[1..];
        if |rest| > 1 {
          assert words[1..] == rest[1..];
          assert JoinWith(rest, " ") == rest[0] + " " + JoinWith(rest[1..], " ");
        }
      }
    }
  }

  lemma {:induction false} SplitOnSpaceNoSpacePrefix(w: string, t: string)
    requires ' ' !in w
    ensures SplitOnSpace(w + t) ==
            [w + SplitOnSpace(t)[0]] + SplitOnSpace(t)[1..]
    decreases |w|
  {
    if w != [] {
      assert (w + t)[1..] == w[1..] + t;
      SplitOnSpaceNoSpacePrefix(w[1..], t);
      assert [w[0]] + (w[1..] + SplitOnSpace(t)[0]) == w + SplitOnSpace(t)[0];
    } else {
      var st := SplitOnSpace(t);
      assert w + t == t;
      assert w + st[0] == st[0];
      assert st == [st[0]] + st[1..];
    }
  }

  /** `(' '.join(words)).split(' ') == words` for a non-empty list of words without
      spaces: the two are inverse to each other. */
  lemma {:induction false} SplitOnSpaceJoin(words: seq<string>)
    requires |words| >= 1
    requires forall k :: 0 <= k < |words| ==> ' ' !in words[k]
    ensures SplitOnSpace(JoinWith(words, " ")) == words
    decreases |words|
  {
    if |words| == 1 {
      SplitOnSpaceNoSpacePrefix(words[0], "");
      assert words[0] + "" == words[0];
      assert SplitOnSpace("") == [""];
      assert words == [words[0]];
    } else {
      var tail := JoinWith(words[1..], " ");
      SplitOnSpaceJoin(words[1..]);
      assert JoinWith(words, " ") == words[0] + (" " + tail);
      SplitOnSpaceNoSpacePrefix(words[0], " " + tail);
      assert (" " + tail)[0] == ' ' && (" " + tail)[1..] == tail;
      assert SplitOnSpace(" " + tail) == [""] + words[1..];
      assert words[0] + "" == words[0];
      assert words == [words[0]] + words[1..];
    }
  }

  /** `''.join(parts)`. */
  function Concat(parts: seq<string>): string
    decreases |parts|
  {
    if parts == [] then "" else parts[0] + Concat(parts[1..])
  }

  lemma {:induction false} ConcatAppend(a: seq<string>, b: seq<string>)
    ensures Concat(a + b) == Concat(a) + Concat(b)
    decreases |a|
  {
    if a == [] {
      assert a + b == b;
    } else {
      assert (a + b)[0] == a[0];
      assert (a + b)[1..] == a[1..] + b;
      ConcatAppend(a[1..], b);
    }
  }

  /** Joining with spaces and concatenating leave the same non-space characters. */
  lemma {:induction false} NonSpaceJoinWithSpace(words: seq<string>)
    ensures NonSpace(JoinWith(words, " ")) == NonSpace(Concat(words))
    decreases |words|
  {
    if |words| == 1 {
      assert words[1..] == [];
      assert Concat(words) == words[0] + "";
      assert Concat(words) == words[0];
    } else if |words| > 1 {
      var tail := JoinWith(words[1..], " ");
      NonSpaceJoinWithSpace(words[1..]);
      NonSpaceConcat(words[0], " " + tail);
      NonSpaceConcat(" ", tail);
      NonSpaceConcat(words[0], Concat(words[1..]));
      assert JoinWith(words, " ") == words[0] + (" " + tail);
    }
  }

  /** Position of the first `c` in `s`, or `|s|` when there is none (`s.find(c)`
      with "not found" reported as the length). */
  function FirstIndexOf(s: string, c: char): (k: nat)
    ensures k <= |s|
    ensures forall i :: 0 <= i < k ==> s[i] != c
    ensures k < |s| ==> s[k] == c
    decreases |s|
  {
    if s == [] then 0 else if s[0] == c then 0 else 1 + FirstIndexOf(s[1..], c)
  }

  /** The first occurrence is found behind a prefix that does not contain it. */
  lemma FirstIndexOfAfter(pre: string, c: char, post: string)
    requires c !in pre
    ensures FirstIndexOf(pre + [c] + post, c) == |pre|
  {
    var s := pre + [c] + post;
    var k := FirstIndexOf(s, c);
    assert s[|pre|] == c;
    assert forall i :: 0 <= i < |pre| ==> s[i] == pre[i];
  }

  // ---------------------------------------------------------------------------
  // Slicing

  /** `s[:k]`: a negative `k` counts from the end, and bounds are clamped. */
  function Take(s: string, k: int): (r: string)
    ensures |r| <= |s| && r == s[..|r|]
    ensures 0 <= k <= |s| ==> |r| == k
    ensures k < 0 ==> |r| == Max(0, |s| + k)
  {
    if k >= 0 then s[..Min(k, |s|)] else s[..Max(0, |s| + k)]
  }

  /** `s[k:]`: together with `Take` it gives back the whole string. */
  function Drop(s: string, k: int): (r: string)
    ensures Take(s, k) + r == s
  {
    if k >= 0 then s[Min(k, |s|)..] else s[Max(0, |s| + k)..]
  }

  // ---------------------------------------------------------------------------
  // re.sub with a literal pattern

  predicate OccursAt(s: string, pat: string, i: nat) {
    i + |pat| <= |s| && s[i..i + |pat|] == pat
  }

  /** `re.sub(pat, rep, s)` when `pat` contains no regex metacharacter: every
      occurrence, scanning left to right without overlap, is replaced by `rep`; an
      empty pattern matches at every position, as Python's does. */
  function ReplaceAll(s: string, pat: string, rep: string): string
    decreases |s|
  {
    if pat == [] then rep + (if s == [] then [] else [s[0]] + ReplaceAll(s[1..], pat, rep))
    else if |s| < |pat| then s
    else if s[..|pat|] == pat then rep + ReplaceAll(s[|pat|..], pat, rep)
    else [s[0]] + ReplaceAll(s[1..], pat, rep)
  }

  /** A text in which the pattern does not occur is left alone. */
  lemma {:induction false} ReplaceAllAbsent(s: string, pat: string, rep: string)
    requires pat != []
    requires forall i: nat :: i <= |s| ==> !OccursAt(s, pat, i)
    ensures ReplaceAll(s, pat, rep) == s
    decreases |s|
  {
    if |s| >= |pat| {
      assert !OccursAt(s, pat, 0);
      assert s[0..|pat|] == s[..|pat|];
      forall i: nat | i <= |s[1..]| ensures !OccursAt(s[1..], pat, i) {
        assert !OccursAt(s, pat, i + 1);
      }
      ReplaceAllAbsent(s[1..], pat, rep);
    }
  }

  /** Replacing a non-empty pattern by itself changes nothing. */
  lemma {:induction false} ReplaceAllSelf(s: string, pat: string)
    requires pat != []
    ensures ReplaceAll(s, pat, pat) == s
    decreases |s|
  {
    if |s| >= |pat| {
      if s[..|pat|] == pat {
        ReplaceAllSelf(s[|pat|..], pat);
        assert s == s[..|pat|] + s[|pat|..];
      } else {
        ReplaceAllSelf(s[1..], pat);
        assert s == [s[0]] + s[1..];
      }
    }
  }

  /** How many times `ReplaceAll` meets a non-empty pattern: occurrences counted
      left to right without overlap. */
  function Occurrences(s: string, pat: string): nat
    requires pat != []
    decreases |s|
  {
    if |s| < |pat| then 0
    else if s[..|pat|] == pat then 1 + Occurrences(s[|pat|..], pat)
    else Occurrences(s[1..], pat)
  }

  lemma MulSucc(n: int, d: int)
    ensures (1 + n) * d == d + n * d
  {
  }

  /** Each replaced occurrence changes the length by the difference of the two
      lengths; so removing (`rep == ""`) shortens the text by the pattern's length
      per occurrence. */
  lemma {:induction false} ReplaceAllLength(s: string, pat: string, rep: string)
    requires pat != []
    ensures |ReplaceAll(s, pat, rep)| == |s| + Occurrences(s, pat) * (|rep| - |pat|)
    decreases |s|
  {
    if |s| >= |pat| {
      if s[..|pat|] == pat {
        ReplaceAllLength(s[|pat|..], pat, rep);
        MulSucc(Occurrences(s[|pat|..], pat), |rep| - |pat|);
      } else {
        ReplaceAllLength(s[1..], pat, rep);
      }
    }
  }

  /** An occurrence at the start is replaced, and the scan goes on after it. */
  lemma ReplaceAllAtMatch(pat: string, rest: string, rep: string)
    requires pat != []
    ensures ReplaceAll(pat + rest, pat, rep) == rep + ReplaceAll(rest, pat, rep)
  {
    var s := pat + rest;
    assert s[..|pat|] == pat && s[|pat|..] == rest;
  }

  /** A first character at which no occurrence starts is kept. */
  lemma ReplaceAllNoMatchAt(s: string, pat: string, rep: string)
    requires pat != [] && s != [] && !OccursAt(s, pat, 0)
    ensures ReplaceAll(s, pat, rep) == [s[0]] + ReplaceAll(s[1..], pat, rep)
  {
    if |s| < |pat| {
      assert ReplaceAll(s[1..], pat, rep) == s[1..];
      assert s == [s[0]] + s[1..];
    } else {
      assert s[0..|pat|] == s[..|pat|];
    }
  }
}
