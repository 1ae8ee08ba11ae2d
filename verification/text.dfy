/** Character-level text handling shared by the parsers: the observable
    behaviour of `std::istream >>` (skip whitespace, then read a word or a
    number), of `sscanf("%llu")`, `strtok_r(..., " ")`, `strchr`/`strrchr`,
    `std::string::find`, `::tolower` and `std::to_string`, stated on
    `string` = `seq<char>`. */
module Text {
  import opened Common

  /** The characters `isspace` accepts in the C locale. */
  predicate IsSpace(c: char) {
    c == ' ' || '\t' <= c <= '\r'
  }

  predicate NoSpace(s: string) {
    forall i :: 0 <= i < |s| ==> !IsSpace(s[i])
  }

  predicate AllSpace(s: string) {
    forall i :: 0 <= i < |s| ==> IsSpace(s[i])
  }

  predicate IsDigit(c: char) {
    '0' <= c <= '9'
  }

  function DigitValue(c: char): (d: nat)
    requires IsDigit(c)
    ensures d < 10
  {
    c as int - '0' as int
  }

  function DigitChar(d: nat): (c: char)
    requires d < 10
    ensures IsDigit(c) && DigitValue(c) == d
  {
    ('0' as int + d) as char
  }

  predicate AllDigits(s: string) {
    forall i :: 0 <= i < |s| ==> IsDigit(s[i])
  }

  /** Value of a run of decimal digits, most significant digit first. */
  function DigitsValue(s: string): nat
    requires AllDigits(s)
  {
    if |s| == 0 then 0 else 10 * DigitsValue(s[..|s| - 1]) + DigitValue(s[|s| - 1])
  }

  /** `std::to_string` of a non-negative number: its decimal digits, which
      read back as the same number. */
  function DecimalString(n: nat): (s: string)
    ensures |s| > 0 && AllDigits(s)
    ensures DigitsValue(s) == n
  {
    if n < 10 then
      var s := [DigitChar(n)];
      assert s[..0] == [];
      s
    else
      var p := DecimalString(n / 10);
      var s := p + [DigitChar(n % 10)];
      assert s[..|s| - 1] == p;
      s
  }

  // ---------------------------------------------------------------
  // Skipping whitespace and measuring runs
  // ---------------------------------------------------------------

  /** What `std::ws` / the whitespace skip of `>>` and `%llu` leaves. */
  function SkipSpace(s: string): (r: string)
    ensures |r| <= |s| && r == s[|s| - |r|..]
    ensures forall i :: 0 <= i < |s| - |r| ==> IsSpace(s[i])
    ensures |r| > 0 ==> !IsSpace(r[0])
    decreases |s|
  {
    if |s| > 0 && IsSpace(s[0]) then SkipSpace(s[1..]) else s
  }

  /** Length of the longest all-digit prefix. */
  function DigitRun(s: string): (n: nat)
    ensures n <= |s|
    ensures forall i :: 0 <= i < n ==> IsDigit(s[i])
    ensures n < |s| ==> !IsDigit(s[n])
  {
    if |s| > 0 && IsDigit(s[0]) then 1 + DigitRun(s[1..]) else 0
  }

  /** Length of the longest prefix free of whitespace. */
  function WordRun(s: string): (n: nat)
    ensures n <= |s|
    ensures forall i :: 0 <= i < n ==> !IsSpace(s[i])
    ensures n < |s| ==> IsSpace(s[n])
  {
    if |s| > 0 && !IsSpace(s[0]) then 1 + WordRun(s[1..]) else 0
  }

  // ---------------------------------------------------------------
  // Stream extraction
  // ---------------------------------------------------------------

  /** Outcome of one numeric extraction: nothing but whitespace was left,
      the next characters are not a number (the stream stores 0 and fails),
      or a number followed by the unread remainder. */
  datatype Scan = AtEnd | NoNumber | Number(value: int, rest: string)

  /** `>>` into an unsigned counter, or one `%llu` conversion: skip
      whitespace, then read the longest run of decimal digits. */
  function ScanNat(s: string): (r: Scan)
    ensures r.AtEnd? <==> forall i :: 0 <= i < |s| ==> IsSpace(s[i])
    ensures r.Number? ==> r.value >= 0 && |r.rest| < |s|
    ensures r.Number? ==> |r.rest| == 0 || !IsDigit(r.rest[0])
  {
    var t := SkipSpace(s);
    if |t| == 0 then AtEnd
    else
      var n := DigitRun(t);
      if n == 0 then NoNumber else Number(DigitsValue(t[..n]), t[n..])
  }

  /** `>>` into a signed integer: skip whitespace, an optional sign, then
      at least one digit. */
  function ScanInt(s: string): (r: Scan)
    ensures r.AtEnd? <==> forall i :: 0 <= i < |s| ==> IsSpace(s[i])
    ensures ScanNat(s).Number? ==> r == ScanNat(s)
  {
    var t := SkipSpace(s);
    if |t| == 0 then AtEnd
    else if t[0] == '-' || t[0] == '+' then
      var u := t[1..];
      var n := DigitRun(u);
      if n == 0 then NoNumber
      else if t[0] == '-' then Number(-(DigitsValue(u[..n]) as int), u[n..])
      else Number(DigitsValue(u[..n]), u[n..])
    else
      var n := DigitRun(t);
      if n == 0 then NoNumber else Number(DigitsValue(t[..n]), t[n..])
  }

  /** Up to `n` consecutive unsigned extractions; reading stops at the
      first one that fails, as a failed stream (or `sscanf`) does. */
  function ScanNats(s: string, n: nat): (r: seq<nat>)
    ensures |r| <= n
  {
    if n == 0 then []
    else match ScanNat(s)
      case Number(v, rest) => [v as nat] + ScanNats(rest, n - 1)
      case _ => []
  }

  /** `xs` followed by zeros up to length `n`: the fields a failed stream
      left at their zero initial value. */
  function Padded(xs: seq<nat>, n: nat): (r: seq<nat>)
    requires |xs| <= n
    ensures |r| == n
    ensures forall i :: 0 <= i < |xs| ==> r[i] == xs[i]
    ensures forall i :: |xs| <= i < n ==> r[i] == 0
  {
    xs + seq(n - |xs|, _ => 0)
  }

  /** A full read needs no padding. */
  lemma PaddedFull(xs: seq<nat>, n: nat)
    requires |xs| == n
    ensures Padded(xs, n) == xs
  {
  }

  /** `>>` into a std::string: skip whitespace, take the next word. The
      word is empty exactly when nothing but whitespace is left. */
  function NextWord(s: string): (r: (string, string))
    ensures forall i :: 0 <= i < |r.0| ==> !IsSpace(r.0[i])
    ensures |r.0| == 0 <==> forall i :: 0 <= i < |s| ==> IsSpace(s[i])
    ensures |r.1| == 0 || IsSpace(r.1[0])
    ensures |r.0| + |r.1| <= |s|
  {
    var t := SkipSpace(s);
    var k := WordRun(t);
    (t[..k], t[k..])
  }

  /** A word followed by whitespace (or by nothing) is what `>>` takes. */
  lemma NextWordOfWord(w: string, rest: string)
    requires |w| > 0 && forall i :: 0 <= i < |w| ==> !IsSpace(w[i])
    requires |rest| == 0 || IsSpace(rest[0])
    ensures NextWord(w + rest) == (w, rest)
  {
    var s := w + rest;
    assert SkipSpace(s) == s;
    assert forall i :: 0 <= i < |w| ==> s[i] == w[i];
    assert |rest| > 0 ==> s[|w|] == rest[0];
    assert WordRun(s) == |w|;
    assert s[..|w|] == w && s[|w|..] == rest;
  }

  /** Leading whitespace does not change the word `>>` takes. */
  lemma NextWordAfterSpace(sp: string, s: string)
    requires AllSpace(sp)
    ensures NextWord(sp + s) == NextWord(s)
  {
    SkipSpacePrefix(sp, s);
  }

  // ---------------------------------------------------------------
  // Searching
  // ---------------------------------------------------------------

  predicate IsPrefix(p: string, s: string) {
    |p| <= |s| && s[..|p|] == p
  }

  /** `s.find(sub) != npos`. */
  predicate Contains(s: string, sub: string)
    decreases |s|
  {
    IsPrefix(sub, s) || (|s| > 0 && Contains(s[1..], sub))
  }

  /** `sub` occurs in `s` starting at index `i`. */
  predicate OccursAt(s: string, sub: string, i: int) {
    0 <= i && i + |sub| <= |s| && s[i..i + |sub|] == sub
  }

  /** `Contains` holds exactly when `sub` occurs at some position of `s`. */
  lemma {:induction false} ContainsIffOccurs(s: string, sub: string)
    ensures Contains(s, sub) <==> exists i :: OccursAt(s, sub, i)
    decreases |s|
  {
    forall i | 0 < i && i + |sub| <= |s|
      ensures OccursAt(s, sub, i) <==> OccursAt(s[1..], sub, i - 1)
    {
      assert s[1..][i - 1..i - 1 + |sub|] == s[i..i + |sub|];
    }
    if IsPrefix(sub, s) {
      assert OccursAt(s, sub, 0);
    }
    if |s| > 0 {
      ContainsIffOccurs(s[1..], sub);
      if Contains(s[1..], sub) {
        var i :| OccursAt(s[1..], sub, i);
        assert OccursAt(s, sub, i + 1);
      }
    }
  }

  /** `strchr`: index of the first `c`, or -1. */
  function IndexOf(s: string, c: char): (r: int)
    ensures -1 <= r < |s|
    ensures r == -1 <==> c !in s
    ensures r >= 0 ==> s[r] == c && forall j :: 0 <= j < r ==> s[j] != c
  {
    if |s| == 0 then -1
    else if s[0] == c then 0
    else
      var k := IndexOf(s[1..], c);
      if k == -1 then -1 else k + 1
  }

  /** The first `c` is the one right after a text free of `c`. */
  lemma IndexOfAfterPrefix(a: string, b: string, c: char)
    requires c !in a
    ensures IndexOf(a + ([c] + b), c) == |a|
  {
    var s := a + ([c] + b);
    assert s[|a|] == c;
    assert forall j :: 0 <= j < |a| ==> s[j] == a[j];
  }

  /** `strrchr`: index of the last `c`, or -1. */
  function LastIndexOf(s: string, c: char): (r: int)
    ensures -1 <= r < |s|
    ensures r == -1 <==> c !in s
    ensures r >= 0 ==> s[r] == c && forall j :: r < j < |s| ==> s[j] != c
  {
    if |s| == 0 then -1
    else if s[|s| - 1] == c then |s| - 1
    else
      var k := LastIndexOf(s[..|s| - 1], c);
      assert forall j :: 0 <= j < |s| - 1 ==> s[..|s| - 1][j] == s[j];
      k
  }

  // ---------------------------------------------------------------
  // Case folding
  // ---------------------------------------------------------------

  /** `::tolower` in the C locale: only 'A'..'Z' change. */
  function Lower(c: char): (r: char)
    ensures 'A' <= c <= 'Z' ==> r as int == c as int + 32
    ensures !('A' <= c <= 'Z') ==> r == c
    ensures !('A' <= r <= 'Z')
  {
    if 'A' <= c <= 'Z' then (c as int + 32) as char else c
  }

  function ToLower(s: string): (r: string)
    ensures |r| == |s| && forall i :: 0 <= i < |s| ==> r[i] == Lower(s[i])
  {
    seq(|s|, i requires 0 <= i < |s| => Lower(s[i]))
  }

  // ---------------------------------------------------------------
  // strtok_r with a single-character delimiter
  // ---------------------------------------------------------------

  /** Length of the longest prefix not containing `sep`. */
  function RunUntil(s: string, sep: char): (n: nat)
    ensures n <= |s|
    ensures forall i :: 0 <= i < n ==> s[i] != sep
    ensures n < |s| ==> s[n] == sep
  {
    if |s| > 0 && s[0] != sep then 1 + RunUntil(s[1..], sep) else 0
  }

  /** The tokens `strtok_r(s, sep)` returns in turn: maximal non-empty
      runs free of `sep`; runs of delimiters produce no empty token. */
  function Tokens(s: string, sep: char): (ts: seq<string>)
    ensures forall i :: 0 <= i < |ts| ==> |ts[i]| > 0 && sep !in ts[i]
    decreases |s|
  {
    if |s| == 0 then []
    else if s[0] == sep then Tokens(s[1..], sep)
    else
      var k := RunUntil(s, sep);
      [s[..k]] + Tokens(s[k..], sep)
  }

  /** The fields written out with one `sep` between neighbours. */
  function Join(ts: seq<string>, sep: char): string
  {
    if |ts| == 0 then ""
    else if |ts| == 1 then ts[0]
    else ts[0] + [sep] + Join(ts[1..], sep)
  }

  predicate IsField(t: string, sep: char) {
    |t| > 0 && sep !in t
  }

  lemma RunUntilOfField(w: string, rest: string, sep: char)
    requires sep !in w
    requires |rest| == 0 || rest[0] == sep
    ensures RunUntil(w + rest, sep) == |w|
    decreases |w|
  {
    if |w| > 0 {
      assert (w + rest)[1..] == w[1..] + rest;
      RunUntilOfField(w[1..], rest, sep);
    }
  }

  /** Tokenising non-empty, delimiter-free fields joined by the delimiter
      gives the fields back. */
  lemma {:induction false} TokensOfJoin(ts: seq<string>, sep: char)
    requires forall i :: 0 <= i < |ts| ==> IsField(ts[i], sep)
    ensures Tokens(Join(ts, sep), sep) == ts
    decreases |ts|
  {
    if |ts| == 0 {
    } else if |ts| == 1 {
      var s := ts[0];
      RunUntilOfField(s, "", sep);
      assert s + "" == s;
      assert s[..|s|] == s && s[|s|..] == "";
    } else {
      var rest := [sep] + Join(ts[1..], sep);
      var s := ts[0] + rest;
      assert Join(ts, sep) == s;
      RunUntilOfField(ts[0], rest, sep);
      assert s[..|ts[0]|] == ts[0];
      assert s[|ts[0]|..] == rest;
      assert rest[1..] == Join(ts[1..], sep);
      TokensOfJoin(ts[1..], sep);
      assert Tokens(s, sep) == [ts[0]] + Tokens(rest, sep);
      assert Tokens(rest, sep) == Tokens(Join(ts[1..], sep), sep);
      assert ts == [ts[0]] + ts[1..];
    }
  }

  // ---------------------------------------------------------------
  // Reading back what was written in decimal
  // ---------------------------------------------------------------

  /** The decimal renderings of a list of counters. */
  function DecimalStrings(vs: seq<nat>): (ds: seq<string>)
    ensures |ds| == |vs|
    ensures forall i :: 0 <= i < |vs| ==> ds[i] == DecimalString(vs[i])
  {
    seq(|vs|, i requires 0 <= i < |vs| => DecimalString(vs[i]))
  }

  lemma {:induction false} DigitRunOfDigits(d: string, tail: string)
    requires AllDigits(d)
    requires |tail| == 0 || !IsDigit(tail[0])
    ensures DigitRun(d + tail) == |d|
    decreases |d|
  {
    if |d| > 0 {
      assert (d + tail)[1..] == d[1..] + tail;
      DigitRunOfDigits(d[1..], tail);
    }
  }

  /** A number written in decimal and followed by a non-digit is read back
      by one unsigned extraction, which stops right after it. */
  lemma ScanNatOfDecimal(n: nat, tail: string)
    requires |tail| == 0 || !IsDigit(tail[0])
    ensures ScanNat(DecimalString(n) + tail) == Number(n, tail)
  {
    var d := DecimalString(n);
    var s := d + tail;
    assert SkipSpace(s) == s;
    DigitRunOfDigits(d, tail);
    assert s[..|d|] == d && s[|d|..] == tail;
  }

  lemma {:induction false} SkipSpacePrefix(sp: string, s: string)
    requires forall i :: 0 <= i < |sp| ==> IsSpace(sp[i])
    ensures SkipSpace(sp + s) == SkipSpace(s)
    decreases |sp|
  {
    if |sp| == 0 {
      assert sp + s == s;
    } else {
      assert IsSpace((sp + s)[0]);
      assert (sp + s)[1..] == sp[1..] + s;
      SkipSpacePrefix(sp[1..], s);
    }
  }

  /** Leading whitespace does not change what the extractions read. */
  lemma ScanNatsAfterSpace(sp: string, s: string, n: nat)
    requires forall i :: 0 <= i < |sp| ==> IsSpace(sp[i])
    ensures ScanNats(sp + s, n) == ScanNats(s, n)
  {
    if n > 0 {
      ScanNatAfterSpace(sp, s);
      var r := ScanNat(s);
      if r.Number? {
        ScanNatsNumber(s, n);
        ScanNatsNumber(sp + s, n);
      }
    }
  }

  lemma ScanNatAfterSpace(sp: string, s: string)
    requires forall i :: 0 <= i < |sp| ==> IsSpace(sp[i])
    ensures ScanNat(sp + s) == ScanNat(s)
  {
    SkipSpacePrefix(sp, s);
  }

  lemma {:induction false} ScanNatsCons(v: nat, rest: string, n: nat)
    requires n > 0
    requires |rest| == 0 || !IsDigit(rest[0])
    ensures ScanNats(DecimalString(v) + rest, n) == [v] + ScanNats(rest, n - 1)
  {
    var s := DecimalString(v) + rest;
    ScanNatOfDecimal(v, rest);
    ScanNatsNumber(s, n);
  }

  lemma ScanNatsNumber(s: string, n: nat)
    requires n > 0 && ScanNat(s).Number?
    ensures ScanNats(s, n) == [ScanNat(s).value as nat] + ScanNats(ScanNat(s).rest, n - 1)
  {
  }

  lemma JoinCons(ts: seq<string>, sep: char)
    requires |ts| > 1
    ensures Join(ts, sep) == ts[0] + ([sep] + Join(ts[1..], sep))
  {
  }

  /** The first `n` of `vs` are its head followed by the first `n - 1` of
      its tail. */
  lemma TakeCons(vs: seq<nat>, n: nat)
    requires 0 < n <= |vs|
    ensures vs[..n] == [vs[0]] + vs[1..][..n - 1]
  {
  }

  /** `ds` spells out each counter of `vs` in decimal. */
  predicate Spells(ds: seq<string>, vs: seq<nat>) {
    |ds| == |vs| && forall i :: 0 <= i < |vs| ==> ds[i] == DecimalString(vs[i])
  }

  lemma SpellsTail(ds: seq<string>, vs: seq<nat>)
    requires Spells(ds, vs) && |vs| > 0
    ensures Spells(ds[1..], vs[1..])
  {
    forall i | 0 <= i < |vs| - 1
      ensures ds[1..][i] == DecimalString(vs[1..][i])
    {
      assert ds[1..][i] == ds[i + 1];
    }
  }

  /** One counter and the separating space are consumed together, then
      the remaining counters are read as before. */
  lemma {:induction false} ScanNatsSpelledStep(v: nat, j: string, vs: seq<nat>, n: nat)
    requires 0 < n <= |vs| && vs[0] == v
    requires ScanNats(j, n - 1) == vs[1..][..n - 1]
    ensures ScanNats(DecimalString(v) + ([' '] + j), n) == vs[..n]
  {
    ScanNatsCons(v, [' '] + j, n);
    ScanNatsAfterSpace([' '], j, n - 1);
    TakeCons(vs, n);
  }

  lemma {:induction false} ScanNatsOfSpelled(ds: seq<string>, vs: seq<nat>, n: nat)
    requires Spells(ds, vs) && n <= |vs|
    ensures ScanNats(Join(ds, ' '), n) == vs[..n]
    decreases n
  {
    if n > 0 {
      if |vs| == 1 {
        assert Join(ds, ' ') == DecimalString(vs[0]) + "";
        ScanNatsCons(vs[0], "", n);
      } else {
        var j1 := Join(ds[1..], ' ');
        SpellsTail(ds, vs);
        ScanNatsOfSpelled(ds[1..], vs[1..], n - 1);
        JoinCons(ds, ' ');
        assert ds[0] == DecimalString(vs[0]);
        ScanNatsSpelledStep(vs[0], j1, vs, n);
      }
    }
  }

  /** Counters written in decimal, separated by single spaces, are read
      back in order by consecutive unsigned extractions. */
  lemma ScanNatsOfJoin(vs: seq<nat>, n: nat)
    requires n <= |vs|
    ensures ScanNats(Join(DecimalStrings(vs), ' '), n) == vs[..n]
  {
    ScanNatsOfSpelled(DecimalStrings(vs), vs, n);
  }

  /** The same after leading whitespace. */
  lemma ScanNatsOfSpacedJoin(sp: string, vs: seq<nat>, n: nat)
    requires forall i :: 0 <= i < |sp| ==> IsSpace(sp[i])
    requires n <= |vs|
    ensures ScanNats(sp + Join(DecimalStrings(vs), ' '), n) == vs[..n]
  {
    ScanNatsAfterSpace(sp, Join(DecimalStrings(vs), ' '), n);
    ScanNatsOfJoin(vs, n);
  }

  /** Counters written in decimal, each after its own run of whitespace:
      the shape of a column-aligned line. */
  function Spaced(gaps: seq<string>, vs: seq<nat>): string
    requires |gaps| == |vs|
    decreases |vs|
  {
    if |vs| == 0 then "" else gaps[0] + (DecimalString(vs[0]) + Spaced(gaps[1..], vs[1..]))
  }

  /** Whitespace runs that keep neighbouring numbers apart: only the run
      before the first number may be empty. */
  predicate Separators(gaps: seq<string>) {
    && (forall i :: 0 <= i < |gaps| ==> AllSpace(gaps[i]))
    && (forall i :: 0 < i < |gaps| ==> |gaps[i]| > 0)
  }

  /** After the first number the text goes on with whitespace, if at all. */
  lemma SpacedTailStartsBlank(gaps: seq<string>, vs: seq<nat>)
    requires |gaps| == |vs| && Separators(gaps) && |vs| > 0
    ensures var t := Spaced(gaps[1..], vs[1..]);
            |t| == 0 || !IsDigit(t[0])
  {
    if |vs| > 1 {
      var g := gaps[1..];
      assert g[0] == gaps[1] && |g[0]| > 0 && IsSpace(g[0][0]);
      assert Spaced(g, vs[1..])[0] == g[0][0];
    }
  }

  /** Each number is read back after its whitespace, in order. */
  lemma {:induction false} ScanNatsOfSpaced(gaps: seq<string>, vs: seq<nat>, n: nat)
    requires |gaps| == |vs| && Separators(gaps) && n <= |vs|
    ensures ScanNats(Spaced(gaps, vs), n) == vs[..n]
    decreases n
  {
    if n > 0 {
      var t := Spaced(gaps[1..], vs[1..]);
      ScanNatsOfSpaced(gaps[1..], vs[1..], n - 1);
      SpacedTailStartsBlank(gaps, vs);
      SpacedCons(gaps, vs);
      ScanNatsSpacedStep(gaps[0], vs[0], t, vs, n);
    }
  }

  lemma SpacedCons(gaps: seq<string>, vs: seq<nat>)
    requires |gaps| == |vs| && Separators(gaps) && |vs| > 0
    ensures AllSpace(gaps[0])
    ensures Spaced(gaps, vs) == gaps[0] + (DecimalString(vs[0]) + Spaced(gaps[1..], vs[1..]))
  {
  }


  /** One run of whitespace and one number are consumed together, then
      the remaining numbers are read as before. */
  lemma ScanNatsSpacedStep(g: string, v: nat, t: string, vs: seq<nat>, n: nat)
    requires AllSpace(g)
    requires |t| == 0 || !IsDigit(t[0])
    requires 0 < n <= |vs| && vs[0] == v
    requires ScanNats(t, n - 1) == vs[1..][..n - 1]
    ensures ScanNats(g + (DecimalString(v) + t), n) == vs[..n]
  {
    ScanNatsAfterSpace(g, DecimalString(v) + t, n);
    ScanNatsCons(v, t, n);
    TakeCons(vs, n);
  }
}
