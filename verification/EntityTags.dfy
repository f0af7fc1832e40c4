/** Entity tags: printing and parsing version tokens, and the If-None-Match matcher against the
    grammar of RFC 9110 (sections 8.8.3 and 13.1.2). Header values are sequences of characters. */
module EntityTags {
  import opened Tables

  const INT64_LIMIT := 0x8000_0000_0000_0000

  // ---------- strconv.FormatInt and strconv.ParseInt, base 10 ----------

  predicate IsDigit(c: char) {
    '0' <= c <= '9'
  }

  predicate AllDigits(s: string) {
    forall i | 0 <= i < |s| :: IsDigit(s[i])
  }

  function Digits(n: nat): (s: string)
    ensures s != [] && AllDigits(s)
  {
    if n < 10 then ['0' + n as char] else Digits(n / 10) + ['0' + (n % 10) as char]
  }

  function FormatInt(n: int): string {
    if n < 0 then ['-'] + Digits(-n) else Digits(n)
  }

  function Value(s: string): nat
    requires AllDigits(s)
  {
    if s == [] then 0 else 10 * Value(s[..|s| - 1]) + (s[|s| - 1] - '0') as int
  }

  /** None is a syntax or range error. */
  function ParseInt(s: string): Option<int> {
    if s == [] then None
    else
      var negative := s[0] == '-';
      var body := if negative || s[0] == '+' then s[1..] else s;
      if body == [] || !AllDigits(body) then None
      else
        var v: int := Value(body);
        if negative then (if v <= INT64_LIMIT then Some(-v) else None)
        else if v < INT64_LIMIT then Some(v) else None
  }

  lemma {:induction false} ValueOfDigits(n: nat)
    ensures Value(Digits(n)) == n
  {
    if n >= 10 {
      ValueOfDigits(n / 10);
      var s := Digits(n);
      assert s[..|s| - 1] == Digits(n / 10);
    }
  }

  lemma ParseFormatted(n: nat)
    requires n < INT64_LIMIT
    ensures ParseInt(FormatInt(n)) == Some(n)
  {
    ValueOfDigits(n);
    assert IsDigit(Digits(n)[0]);
  }

  lemma FormatIntInjective(a: int, b: int)
    requires FormatInt(a) == FormatInt(b)
    ensures a == b
  {
    if a >= 0 {
      ValueOfDigits(a);
      assert IsDigit(Digits(a)[0]);
    } else {
      ValueOfDigits(-a);
      assert FormatInt(a)[1..] == Digits(-a);
    }
    if b >= 0 {
      ValueOfDigits(b);
      assert IsDigit(Digits(b)[0]);
    } else {
      ValueOfDigits(-b);
      assert FormatInt(b)[1..] == Digits(-b);
    }
  }

  function Pow10(n: nat): nat {
    if n == 0 then 1 else 10 * Pow10(n - 1)
  }

  /** A single digit counts its distance from zero. */
  lemma DigitValues()
    ensures Value("0") == 0 && Value("1") == 1 && Value("2") == 2 && Value("3") == 3 && Value("4") == 4
    ensures Value("5") == 5 && Value("6") == 6 && Value("7") == 7 && Value("8") == 8 && Value("9") == 9
  {
    assert "0"[..0] == [] && "1"[..0] == [] && "2"[..0] == [] && "3"[..0] == [] && "4"[..0] == [];
    assert "5"[..0] == [] && "6"[..0] == [] && "7"[..0] == [] && "8"[..0] == [] && "9"[..0] == [];
  }

  lemma Shift(x: int, y: int, z: int, d: int)
    ensures 10 * (x * y + z) + d == x * (10 * y) + (10 * z + d)
  {
  }

  lemma ValueSnoc(s: string, c: char)
    requires AllDigits(s) && IsDigit(c)
    ensures AllDigits(s + [c]) && Value(s + [c]) == 10 * Value(s) + (c - '0') as int
  {
    assert (s + [c])[..|s|] == s;
  }

  lemma EmptyValue()
    ensures Value("") == 0
  {
  }

  /** Numerals are positional: of two digit strings side by side the left one counts tens to the
      length of the right one. */
  lemma {:induction false} NumeralsArePositional(a: string, b: string)
    requires AllDigits(a) && AllDigits(b)
    ensures AllDigits(a + b) && Value(a + b) == Value(a) * Pow10(|b|) + Value(b)
    decreases |b|
  {
    hide Value;
    if b == [] {
      assert a + b == a;
      EmptyValue();
    } else {
      var init, c := b[..|b| - 1], b[|b| - 1];
      NumeralsArePositional(a, init);
      assert a + b == (a + init) + [c] && b == init + [c];
      ValueSnoc(a + init, c);
      ValueSnoc(init, c);
      Shift(Value(a), Pow10(|init|), Value(init), (c - '0') as int);
    }
  }

  /** The numbers that are parsed: an optional sign and at least one digit, in the range of 64
      bits, with the value of the digits. */
  lemma ParseIntMeans(s: string, v: int)
    ensures ParseInt(s) == Some(v) <==>
              exists sign, digits ::
                && sign in ["", "+", "-"] && digits != [] && AllDigits(digits) && s == sign + digits
                && Value(digits) == (if sign == "-" then -v else v)
                && -0x8000_0000_0000_0000 <= v <= 0x7FFF_FFFF_FFFF_FFFF
  {
    if ParseInt(s) == Some(v) {
      var sign := if s[0] == '-' then "-" else if s[0] == '+' then "+" else "";
      var digits := if s[0] == '-' || s[0] == '+' then s[1..] else s;
      assert s == sign + digits;
    }
    if sign, digits :|
      && sign in ["", "+", "-"] && digits != [] && AllDigits(digits) && s == sign + digits
      && Value(digits) == (if sign == "-" then -v else v)
      && -0x8000_0000_0000_0000 <= v <= 0x7FFF_FFFF_FFFF_FFFF {
      assert IsDigit(digits[0]);
      if sign == "" {
        assert s == digits;
      } else {
        assert s[0] == sign[0] && s[1..] == digits;
      }
    }
  }

  // ---------- strings.TrimSpace ----------

  predicate IsSpace(c: char) {
    || '\t' <= c <= '\r' || c == ' ' || c == '\U{85}' || c == '\U{A0}'
    || c == '\U{1680}' || '\U{2000}' <= c <= '\U{200A}'
    || c == '\U{2028}' || c == '\U{2029}' || c == '\U{202F}' || c == '\U{205F}' || c == '\U{3000}'
  }

  function TrimLeft(s: string): string {
    if s != [] && IsSpace(s[0]) then TrimLeft(s[1..]) else s
  }

  function TrimRight(s: string): string {
    if s != [] && IsSpace(s[|s| - 1]) then TrimRight(s[..|s| - 1]) else s
  }

  function TrimSpace(s: string): string {
    TrimRight(TrimLeft(s))
  }

  predicate AllSpace(s: string) {
    forall i | 0 <= i < |s| :: IsSpace(s[i])
  }

  lemma {:induction false} TrimLeftOf(w: string, s: string)
    requires AllSpace(w)
    ensures TrimLeft(w + s) == TrimLeft(s)
    decreases |w|
  {
    if w == [] {
      assert w + s == s;
    } else {
      TrimLeftOf(w[1..], s);
      assert (w + s)[1..] == w[1..] + s;
    }
  }

  lemma {:induction false} TrimRightOf(s: string, w: string)
    requires AllSpace(w)
    ensures TrimRight(s + w) == TrimRight(s)
    decreases |w|
  {
    if w == [] {
      assert s + w == s;
    } else {
      TrimRightOf(s, w[..|w| - 1]);
      assert (s + w)[..|s + w| - 1] == s + w[..|w| - 1];
    }
  }

  /** Trimming what is surrounded by white space gives it back. */
  lemma TrimPadded(w: string, s: string, v: string)
    requires AllSpace(w) && AllSpace(v) && s != [] && !IsSpace(s[0]) && !IsSpace(s[|s| - 1])
    ensures TrimSpace(w + s + v) == s
  {
    assert w + s + v == w + (s + v);
    TrimLeftOf(w, s + v);
    TrimRightOf(s, v);
  }

  lemma {:induction false} TrimLeftSplits(s: string) returns (w: string)
    ensures AllSpace(w) && s == w + TrimLeft(s) && (TrimLeft(s) == [] || !IsSpace(TrimLeft(s)[0]))
    decreases |s|
  {
    if s != [] && IsSpace(s[0]) {
      var rest := TrimLeftSplits(s[1..]);
      w := [s[0]] + rest;
      assert s == [s[0]] + s[1..];
    } else {
      w := [];
      assert s == w + s;
    }
  }

  lemma {:induction false} TrimRightSplits(s: string) returns (w: string)
    ensures AllSpace(w) && s == TrimRight(s) + w
    ensures TrimRight(s) == [] || !IsSpace(TrimRight(s)[|TrimRight(s)| - 1])
    decreases |s|
  {
    if s != [] && IsSpace(s[|s| - 1]) {
      var rest := TrimRightSplits(s[..|s| - 1]);
      w := rest + [s[|s| - 1]];
      assert s == s[..|s| - 1] + [s[|s| - 1]];
    } else {
      w := [];
      assert s == s + w;
    }
  }

  /** The white space of Unicode, character by character. */
  lemma WhiteSpaceIs(c: char)
    ensures IsSpace(c) <==> c as int in {
              0x09, 0x0A, 0x0B, 0x0C, 0x0D, 0x20, 0x85, 0xA0, 0x1680, 0x2000, 0x2001, 0x2002, 0x2003, 0x2004, 0x2005,
              0x2006, 0x2007, 0x2008, 0x2009, 0x200A, 0x2028, 0x2029, 0x202F, 0x205F, 0x3000}
  {
  }

  /** What is trimmed off is white space, and what is left neither starts nor ends with it. */
  lemma TrimSpaceSplits(s: string) returns (w: string, v: string)
    ensures AllSpace(w) && AllSpace(v) && s == w + TrimSpace(s) + v
    ensures TrimSpace(s) == [] || (!IsSpace(TrimSpace(s)[0]) && !IsSpace(TrimSpace(s)[|TrimSpace(s)| - 1]))
  {
    w := TrimLeftSplits(s);
    v := TrimRightSplits(TrimLeft(s));
    assert s == w + (TrimSpace(s) + v);
  }

  lemma {:induction false} TrimAllSpace(w: string)
    requires AllSpace(w)
    ensures TrimSpace(w) == []
  {
    TrimLeftOf(w, []);
    assert w + [] == w;
  }

  lemma BlankMeans(s: string)
    ensures TrimSpace(s) == [] <==> AllSpace(s)
  {
    var w, v := TrimSpaceSplits(s);
    if AllSpace(s) {
      TrimAllSpace(s);
    }
  }

  // ---------- the version token of If-Match ----------

  function Quoted(s: string): string {
    ['"'] + s + ['"']
  }

  function FormatETag(version: int): string {
    Quoted(FormatInt(version))
  }

  datatype IfMatch = Expect(version: int) | Wildcard | Missing | Malformed | Weak

  function ParseIfMatch(header: string): IfMatch {
    var raw := TrimSpace(header);
    if raw == [] then Missing
    else if raw == "*" then Wildcard
    else if ',' in raw then Malformed
    else if "W/" <= raw then Weak
    else if |raw| < 2 || raw[0] != '"' || raw[|raw| - 1] != '"' then Malformed
    else
      var v := ParseInt(raw[1..|raw| - 1]);
      if v.None? || v.value < 1 then Malformed else Expect(v.value)
  }

  lemma QuotedParts(s: string)
    ensures |Quoted(s)| == |s| + 2 && Quoted(s)[0] == '"' && Quoted(s)[|s| + 1] == '"'
    ensures Quoted(s)[1..|s| + 1] == s
    ensures TrimSpace(Quoted(s)) == Quoted(s)
  {
    TrimPadded([], Quoted(s), []);
    assert [] + Quoted(s) + [] == Quoted(s);
  }

  lemma ParsedHasNoComma(s: string)
    requires ParseInt(s).Some?
    ensures ',' !in s
  {
    var body := if s[0] == '-' || s[0] == '+' then s[1..] else s;
    forall i | 0 <= i < |s|
      ensures s[i] != ','
    {
      if |body| == |s| {
        assert IsDigit(body[i]);
      } else if i > 0 {
        assert s[i] == body[i - 1] && IsDigit(body[i - 1]);
      }
    }
  }

  lemma AcceptedIsQuoted(header: string, v: int)
    requires ParseIfMatch(header) == Expect(v)
    ensures var raw := TrimSpace(header);
            |raw| >= 2 && raw == Quoted(raw[1..|raw| - 1]) && ParseInt(raw[1..|raw| - 1]) == Some(v) && 1 <= v
  {
    hide TrimSpace, ParseInt;
  }

  lemma QuotedIsAccepted(header: string, s: string, v: int)
    requires TrimSpace(header) == Quoted(s) && ParseInt(s) == Some(v) && 1 <= v
    ensures ParseIfMatch(header) == Expect(v)
  {
    QuotedParts(s);
    ParsedHasNoComma(s);
    assert ',' !in Quoted(s);
  }

  /** The accepted headers are exactly a quoted decimal number from 1 to 2^63-1, with an
      optional sign and leading zeros, in white space. */
  lemma IfMatchAccepts(header: string, v: int)
    ensures ParseIfMatch(header) == Expect(v)
       <==> 1 <= v && exists s :: TrimSpace(header) == Quoted(s) && ParseInt(s) == Some(v)
  {
    hide TrimSpace, ParseInt, ParseIfMatch, Quoted;
    if ParseIfMatch(header) == Expect(v) {
      AcceptedIsQuoted(header, v);
    }
    if s :| TrimSpace(header) == Quoted(s) && ParseInt(s) == Some(v) && 1 <= v {
      QuotedIsAccepted(header, s, v);
    }
  }

  /** Which header is taken for what. Blank is missing, a star is the wildcard, a list or
      anything that is no quoted positive number is malformed, and a weak tag is refused. */
  lemma IfMatchMeans(header: string)
    ensures var t, p := TrimSpace(header), ParseIfMatch(header);
            && (p == Missing <==> AllSpace(header))
            && (p == Wildcard <==> t == "*")
            && (p == Weak <==> |t| >= 2 && t[0] == 'W' && t[1] == '/' && ',' !in t)
            && (p == Malformed <==>
                  && !AllSpace(header) && t != "*" && !(|t| >= 2 && t[0] == 'W' && t[1] == '/' && ',' !in t)
                  && !(exists s, v :: t == Quoted(s) && ParseInt(s) == Some(v) && 1 <= v))
  {
    BlankMeans(header);
    hide TrimSpace, ParseInt, Quoted, AllSpace;
    var t := TrimSpace(header);
    forall s, v | t == Quoted(s) && ParseInt(s) == Some(v) && 1 <= v
      ensures ParseIfMatch(header) == Expect(v)
    {
      IfMatchAccepts(header, v);
    }
    if ParseIfMatch(header).Expect? {
      IfMatchAccepts(header, ParseIfMatch(header).version);
    }
    assert "W/" <= t <==> |t| >= 2 && t[0] == 'W' && t[1] == '/';
  }

  lemma {:induction false} DigitsAreCanonical(n: nat)
    ensures Digits(n)[0] == '0' ==> n == 0 && Digits(n) == "0"
  {
    if n >= 10 {
      DigitsAreCanonical(n / 10);
    }
  }

  /** The tag of a version: its number in quotes, without a plus sign or leading zeros. */
  lemma VersionTagMeans(version: int)
    ensures exists digits ::
              && digits != [] && AllDigits(digits) && (digits[0] == '0' ==> digits == "0")
              && Value(digits) == (if version < 0 then -version else version)
              && FormatETag(version) == "\"" + (if version < 0 then "-" + digits else digits) + "\""
  {
    var n := if version < 0 then -version else version;
    ValueOfDigits(n);
    DigitsAreCanonical(n);
    assert FormatETag(version) == "\"" + (if version < 0 then "-" + Digits(n) else Digits(n)) + "\"";
  }

  /** A client that sends back the tag it was given is understood. */
  lemma IfMatchRoundTrip(v: int)
    requires 1 <= v < INT64_LIMIT
    ensures ParseIfMatch(FormatETag(v)) == Expect(v)
  {
    ParseFormatted(v);
    QuotedParts(FormatInt(v));
    IfMatchAccepts(FormatETag(v), v);
  }

  lemma SpelledOtherwise(s: string, v: int)
    requires 1 <= v < INT64_LIMIT && ParseInt(s) == Some(v)
    ensures ParseIfMatch(Quoted(s)) == Expect(v) == ParseIfMatch(FormatETag(v))
  {
    hide TrimSpace, ParseInt, ParseIfMatch;
    IfMatchRoundTrip(v);
    QuotedParts(s);
    IfMatchAccepts(Quoted(s), v);
  }

  /** Other spellings of a version are accepted too, so parsing is not injective. */
  lemma IfMatchOtherSpellings()
    ensures ParseIfMatch(Quoted("+1")) == Expect(1) == ParseIfMatch(FormatETag(1))
    ensures ParseIfMatch(Quoted("007")) == Expect(7) == ParseIfMatch(FormatETag(7))
  {
    hide ParseIfMatch, FormatETag;
    assert "+1"[1..] == "1";
    assert "007"[..2] == "00" && "00"[..1] == "0";
    assert Value("0") == 0;
    assert Value("00") == 0;
    SpelledOtherwise("+1", 1);
    SpelledOtherwise("007", 7);
  }

  // ---------- If-None-Match ----------

  /** strings.Split(s, ",") */
  function Split(s: string): (parts: seq<string>)
    ensures |parts| >= 1
  {
    if s == [] then [[]]
    else
      var rest := Split(s[1..]);
      if s[0] == ',' then [[]] + rest else [[s[0]] + rest[0]] + rest[1..]
  }

  function TrimWeak(s: string): string {
    if "W/" <= s then s[2..] else s
  }

  predicate AnyMatches(parts: seq<string>, tag: string) {
    exists i | 0 <= i < |parts| :: TrimWeak(TrimSpace(parts[i])) == tag
  }

  /** What the matcher answers for a header, as a function. */
  predicate NotModified(header: string, currentETag: string) {
    var raw := TrimSpace(header);
    raw != [] && (raw == "*" || AnyMatches(Split(raw), currentETag))
  }

  /** A blank header matches nothing, a star everything. */
  lemma NotModifiedSpecial(header: string, currentETag: string)
    ensures AllSpace(header) ==> !NotModified(header, currentETag)
    ensures TrimSpace(header) == "*" ==> NotModified(header, currentETag)
  {
    hide TrimSpace, AnyMatches, Split;
    BlankMeans(header);
  }

  method IfNoneMatchMatches(header: string, currentETag: string) returns (r: bool)
    ensures r <==> NotModified(header, currentETag)
  {
    var raw := TrimSpace(header);
    if raw == [] {
      return false;
    }
    if raw == "*" {
      return true;
    }
    var parts := Split(raw);
    for i := 0 to |parts|
      invariant !AnyMatches(parts[..i], currentETag)
    {
      var candidate := parts[i];
      candidate := TrimSpace(candidate);
      candidate := TrimWeak(candidate);
      if candidate == currentETag {
        return true;
      }
      assert parts[..i + 1] == parts[..i] + [parts[i]];
    }
    assert parts[..|parts|] == parts;
    r := false;
  }

  // ---------- the grammar ----------

  /** etagc: any visible character but the double quote; the comma is one of them. */
  predicate IsETagChar(c: char) {
    c == '!' || '#' <= c <= '~' || '\U{80}' <= c
  }

  /** The same in code points, as section 8.8.3 of RFC 9110 gives them (obs-text is 80 and up). */
  lemma ETagCharIs(c: char)
    ensures IsETagChar(c) <==> c as int == 0x21 || 0x23 <= c as int <= 0x7E || 0x80 <= c as int
  {
  }

  predicate IsOpaque(s: string) {
    forall i | 0 <= i < |s| :: IsETagChar(s[i])
  }

  predicate IsOws(s: string) {
    forall i | 0 <= i < |s| :: s[i] == ' ' || s[i] == '\t'
  }

  datatype Tag = Tag(weak: bool, text: string)

  /** A list element between its commas; recipients accept empty ones. */
  datatype Element = Element(before: string, tag: Option<Tag>, after: string)

  predicate WellFormed(e: Element) {
    IsOws(e.before) && IsOws(e.after) && (e.tag.Some? ==> IsOpaque(e.tag.value.text))
  }

  function RenderTag(t: Tag): string {
    (if t.weak then "W/" else "") + Quoted(t.text)
  }

  function Render(e: Element): string {
    e.before + (if e.tag.Some? then RenderTag(e.tag.value) else []) + e.after
  }

  function RenderList(es: seq<Element>): string
    requires es != []
  {
    if |es| == 1 then Render(es[0]) else Render(es[0]) + [','] + RenderList(es[1..])
  }

  /** Weak comparison of the listed tags with a tag of opaque text `text`. */
  predicate ListMatches(es: seq<Element>, text: string) {
    exists i | 0 <= i < |es| :: es[i].tag.Some? && es[i].tag.value.text == text
  }

  // ---------- splitting at commas agrees with the grammar ----------

  lemma SplitCons(c: char, s: string)
    ensures Split([c] + s) == if c == ',' then [[]] + Split(s) else [[c] + Split(s)[0]] + Split(s)[1..]
  {
    assert ([c] + s)[1..] == s;
  }

  lemma ConsAppend(h: string, t: seq<string>, q: seq<string>)
    ensures [h] + (t + q) == ([h] + t) + q
  {
  }

  lemma HeadOfConcat(p: seq<string>, q: seq<string>)
    requires p != []
    ensures (p + q)[0] == p[0] && (p + q)[1..] == p[1..] + q
  {
  }

  lemma SplitJoinCons(c: char, s: string, t: string, b: string)
    requires Split(t) == Split(s) + Split(b)
    ensures Split([c] + t) == Split([c] + s) + Split(b)
  {
    hide Split;
    SplitCons(c, t);
    SplitCons(c, s);
    var p, q := Split(s), Split(b);
    HeadOfConcat(p, q);
    ConsAppend([], p, q);
    ConsAppend([c] + p[0], p[1..], q);
  }

  lemma {:induction false} SplitJoin(a: string, b: string)
    ensures Split(a + [','] + b) == Split(a) + Split(b)
    decreases |a|
  {
    assert Split([]) == [[]];
    if a == [] {
      assert a + [','] + b == [','] + b;
      SplitCons(',', b);
    } else {
      var t := a[1..] + [','] + b;
      SplitJoin(a[1..], b);
      SplitJoinCons(a[0], a[1..], t, b);
      assert a + [','] + b == [a[0]] + t;
      assert a == [a[0]] + a[1..];
    }
  }

  lemma {:induction false} SplitPlain(s: string)
    requires ',' !in s
    ensures Split(s) == [s]
    decreases |s|
  {
    if s != [] {
      SplitPlain(s[1..]);
      assert [s[0]] + s[1..] == s;
    }
  }

  /** The text from `i` to `j` lies between two neighbouring commas, or the ends. */
  ghost predicate IsPiece(s: string, i: nat, j: nat) {
    && i <= j <= |s| && ',' !in s[i..j]
    && (i == 0 || s[i - 1] == ',') && (j == |s| || s[j] == ',')
  }

  lemma FirstPiece(s: string, j: nat)
    requires IsPiece(s, 0, j)
    ensures s[..j] in Split(s)
  {
    SplitPlain(s[..j]);
    assert Split(s[..j])[0] == s[..j];
    if j < |s| {
      SplitJoin(s[..j], s[j + 1..]);
      assert s == s[..j] + [','] + s[j + 1..];
    } else {
      assert s == s[..j];
    }
  }

  lemma AnyPiece(s: string, i: nat, j: nat)
    requires IsPiece(s, i, j)
    ensures s[i..j] in Split(s)
  {
    if i == 0 {
      FirstPiece(s, j);
    } else {
      assert s[i..][..j - i] == s[i..j];
      FirstPiece(s[i..], j - i);
      SplitJoin(s[..i - 1], s[i..]);
      assert s == s[..i - 1] + [','] + s[i..];
    }
  }

  lemma PieceOfHead(a: string, b: string, i: nat, j: nat)
    requires IsPiece(a, i, j)
    ensures IsPiece(a + [','] + b, i, j) && (a + [','] + b)[i..j] == a[i..j]
  {
    assert (a + [','] + b)[i..j] == a[i..j];
  }

  lemma PieceOfTail(a: string, b: string, i: nat, j: nat)
    requires IsPiece(b, i, j)
    ensures var k := |a| + 1;
            IsPiece(a + [','] + b, k + i, k + j) && (a + [','] + b)[k + i..k + j] == b[i..j]
  {
    assert (a + [','] + b)[|a| + 1 + i..|a| + 1 + j] == b[i..j];
  }

  lemma {:induction false} PartIsPiece(s: string, part: string) returns (i: nat, j: nat)
    requires part in Split(s)
    ensures IsPiece(s, i, j) && s[i..j] == part
    decreases |s|
  {
    hide Split;
    if ',' !in s {
      SplitPlain(s);
      i, j := 0, |s|;
      assert s[0..|s|] == s;
    } else {
      var k :| 0 <= k < |s| && s[k] == ',';
      var a, b := s[..k], s[k + 1..];
      SplitJoin(a, b);
      assert s == a + [','] + b;
      if part in Split(a) {
        i, j := PartIsPiece(a, part);
        PieceOfHead(a, b, i, j);
      } else {
        i, j := PartIsPiece(b, part);
        PieceOfTail(a, b, i, j);
        i, j := k + 1 + i, k + 1 + j;
      }
    }
  }

  lemma {:induction false} SplitSnoc(s: string, c: char)
    requires c != ','
    ensures |Split(s + [c])| == |Split(s)|
    ensures Split(s + [c]) == Split(s)[..|Split(s)| - 1] + [Split(s)[|Split(s)| - 1] + [c]]
    decreases |s|
  {
    if s == [] {
      assert s + [c] == [c] + [];
      SplitCons(c, []);
      assert Split(s) == [[]];
    } else {
      SplitSnoc(s[1..], c);
      assert s + [c] == [s[0]] + (s[1..] + [c]) && s == [s[0]] + s[1..];
      SplitCons(s[0], s[1..] + [c]);
      SplitCons(s[0], s[1..]);
      var p := Split(s[1..]);
      if |p| == 1 {
        assert [s[0]] + (p[0] + [c]) == ([s[0]] + p[0]) + [c];
      } else {
        assert Split(s[1..] + [c])[0] == p[0];
        assert Split(s[1..] + [c])[1..] == p[1..|p| - 1] + [p[|p| - 1] + [c]];
      }
    }
  }

  lemma AnyMatchesConcat(a: seq<string>, b: seq<string>, tag: string)
    ensures AnyMatches(a + b, tag) <==> AnyMatches(a, tag) || AnyMatches(b, tag)
  {
    if i :| 0 <= i < |a| && TrimWeak(TrimSpace(a[i])) == tag {
      assert (a + b)[i] == a[i];
    }
    if i :| 0 <= i < |b| && TrimWeak(TrimSpace(b[i])) == tag {
      assert (a + b)[|a| + i] == b[i];
    }
  }

  lemma MatchesOne(p: string, tag: string)
    ensures AnyMatches([p], tag) <==> TrimWeak(TrimSpace(p)) == tag
  {
    assert [p][0] == p;
  }

  /** Trimming the header before splitting it does not change the answer. */
  lemma {:induction false} MatchesTrimLeft(s: string, tag: string)
    ensures AnyMatches(Split(TrimLeft(s)), tag) <==> AnyMatches(Split(s), tag)
    decreases |s|
  {
    if s != [] && IsSpace(s[0]) {
      MatchesTrimLeft(s[1..], tag);
      var rest := Split(s[1..]);
      TrimLeftOf([s[0]], rest[0]);
      assert rest == [rest[0]] + rest[1..];
      AnyMatchesConcat([rest[0]], rest[1..], tag);
      AnyMatchesConcat([[s[0]] + rest[0]], rest[1..], tag);
      MatchesOne(rest[0], tag);
      MatchesOne([s[0]] + rest[0], tag);
    }
  }

  lemma {:induction false} TrimLeftSnoc(p: string, c: char)
    requires IsSpace(c)
    ensures TrimLeft(p + [c]) == if TrimLeft(p) == [] then [] else TrimLeft(p) + [c]
    decreases |p|
  {
    if p == [] {
      assert p + [c] == [c] && [c][1..] == [];
    } else if IsSpace(p[0]) {
      TrimLeftSnoc(p[1..], c);
      assert (p + [c])[1..] == p[1..] + [c];
    }
  }

  lemma TrimSpaceSnoc(p: string, c: char)
    requires IsSpace(c)
    ensures TrimSpace(p + [c]) == TrimSpace(p)
  {
    TrimLeftSnoc(p, c);
    TrimRightOf(TrimLeft(p), [c]);
  }

  lemma MatchesSnoc(s: string, c: char, tag: string)
    requires IsSpace(c)
    ensures AnyMatches(Split(s + [c]), tag) <==> AnyMatches(Split(s), tag)
  {
    SplitSnoc(s, c);
    var p := Split(s);
    var front, last := p[..|p| - 1], p[|p| - 1];
    assert p == front + [last];
    AnyMatchesConcat(front, [last], tag);
    AnyMatchesConcat(front, [last + [c]], tag);
    MatchesOne(last, tag);
    MatchesOne(last + [c], tag);
    TrimSpaceSnoc(last, c);
  }

  lemma {:induction false} MatchesTrimRight(s: string, tag: string)
    ensures AnyMatches(Split(TrimRight(s)), tag) <==> AnyMatches(Split(s), tag)
    decreases |s|
  {
    hide Split, AnyMatches;
    if s != [] && IsSpace(s[|s| - 1]) {
      var init, c := s[..|s| - 1], s[|s| - 1];
      assert TrimRight(s) == TrimRight(init) && s == init + [c];
      MatchesTrimRight(init, tag);
      MatchesSnoc(init, c, tag);
    }
  }

  // Counting double quotes tells pieces of a tag from a whole one.

  function Quotes(s: string): nat {
    if s == [] then 0 else (if s[0] == '"' then 1 else 0) + Quotes(s[1..])
  }

  lemma {:induction false} QuotesConcat(a: string, b: string)
    ensures Quotes(a + b) == Quotes(a) + Quotes(b)
    decreases |a|
  {
    if a == [] {
      assert a + b == b;
    } else {
      QuotesConcat(a[1..], b);
      assert (a + b)[1..] == a[1..] + b;
    }
  }

  lemma {:induction false} NoQuotes(s: string)
    requires '"' !in s
    ensures Quotes(s) == 0
    decreases |s|
  {
    if s != [] {
      NoQuotes(s[1..]);
    }
  }

  lemma {:induction false} QuotesOfParts(s: string, i: nat)
    requires i < |Split(s)|
    ensures Quotes(Split(s)[i]) <= Quotes(s)
    decreases |s|
  {
    if s != [] {
      var rest := Split(s[1..]);
      if s[0] == ',' {
        if i > 0 {
          QuotesOfParts(s[1..], i - 1);
        }
      } else if i == 0 {
        QuotesOfParts(s[1..], 0);
        QuotesConcat([s[0]], rest[0]);
      } else {
        QuotesOfParts(s[1..], i);
      }
    }
  }

  lemma {:induction false} QuotesTrimLeft(s: string)
    ensures Quotes(TrimLeft(s)) <= Quotes(s)
    decreases |s|
  {
    if s != [] && IsSpace(s[0]) {
      QuotesTrimLeft(s[1..]);
    }
  }

  lemma {:induction false} QuotesTrimRight(s: string)
    ensures Quotes(TrimRight(s)) <= Quotes(s)
    decreases |s|
  {
    if s != [] && IsSpace(s[|s| - 1]) {
      QuotesTrimRight(s[..|s| - 1]);
      assert s == s[..|s| - 1] + [s[|s| - 1]];
      QuotesConcat(s[..|s| - 1], [s[|s| - 1]]);
    }
  }

  /** A candidate that equals a quoted text comes from a piece with both quotes. */
  lemma MatchNeedsQuotes(p: string, text: string)
    requires TrimWeak(TrimSpace(p)) == Quoted(text)
    ensures Quotes(p) >= 2
  {
    var t := TrimSpace(p);
    QuotesTrimLeft(p);
    QuotesTrimRight(TrimLeft(p));
    if "W/" <= t {
      assert t == "W/" + t[2..];
      QuotesConcat("W/", t[2..]);
    }
    QuotesConcat(['"'], text);
    QuotesConcat(['"'] + text, ['"']);
  }

  lemma FewQuotesNoMatch(s: string, text: string)
    requires Quotes(s) <= 1
    ensures !AnyMatches(Split(s), Quoted(text))
  {
    if AnyMatches(Split(s), Quoted(text)) {
      var i :| 0 <= i < |Split(s)| && TrimWeak(TrimSpace(Split(s)[i])) == Quoted(text);
      MatchNeedsQuotes(Split(s)[i], text);
      QuotesOfParts(s, i);
    }
  }

  lemma OwsHasNothing(w: string)
    requires IsOws(w)
    ensures AllSpace(w) && ',' !in w && '"' !in w && Quotes(w) == 0
  {
    NoQuotes(w);
  }

  lemma OpaqueHasNoQuote(s: string)
    requires IsOpaque(s)
    ensures Quotes(s) == 0
  {
    forall i | 0 <= i < |s|
      ensures s[i] != '"'
    {
      assert IsETagChar(s[i]);
    }
    NoQuotes(s);
  }

  lemma QuotesAround(w: string, x: string)
    ensures Quotes(w + ['"'] + x) == Quotes(w) + 1 + Quotes(x)
  {
    QuotesConcat(w, ['"']);
    QuotesConcat(w + ['"'], x);
  }

  lemma Assoc(a: string, b: string, c: string)
    ensures (a + b) + c == a + (b + c)
  {
  }

  lemma QuotedCut(x: string, k: string, y: string, p: string, after: string)
    ensures (p + Quoted(x + k + y)) + after == ((p + ['"'] + x) + k) + (y + ['"'] + after)
  {
    var q := ['"'];
    assert Quoted(x + k + y) == q + (x + k) + (y + q) by {
      Assoc(q, x + k, y);
      Assoc(q + (x + k), y, q);
    }
    Assoc(p, q + (x + k), y + q);
    Assoc(p + (q + (x + k)), y + q, after);
    Assoc(p, q, x + k);
    Assoc(p + q, x, k);
  }

  lemma RenderCut(e: Element, x: string, y: string)
    requires e.tag.Some? && e.tag.value.text == x + [','] + y
    ensures Render(e)
         == ((e.before + (if e.tag.value.weak then "W/" else "")) + ['"'] + x) + [','] + (y + ['"'] + e.after)
  {
    var p := if e.tag.value.weak then "W/" else "";
    Assoc(e.before, p, Quoted(e.tag.value.text));
    QuotedCut(x, [','], y, e.before + p, e.after);
  }

  lemma WeakPrefixQuotes(w: string, weak: bool)
    ensures Quotes(w + (if weak then "W/" else "")) == Quotes(w)
  {
    var p := if weak then "W/" else "";
    NoQuotes(p);
    QuotesConcat(w, p);
  }

  /** A tag whose text has a comma falls into pieces with one quote each: no match. */
  lemma CommaInTag(e: Element, x: string, y: string, text: string)
    requires WellFormed(e) && e.tag.Some? && e.tag.value.text == x + [','] + y
    ensures !AnyMatches(Split(Render(e)), Quoted(text))
  {
    var prefix := e.before + (if e.tag.value.weak then "W/" else "");
    var a, b := prefix + ['"'] + x, y + ['"'] + e.after;
    assert IsOpaque(x) by {
      assert forall i | 0 <= i < |x| :: x[i] == e.tag.value.text[i];
    }
    assert IsOpaque(y) by {
      assert forall i | 0 <= i < |y| :: y[i] == e.tag.value.text[|x| + 1 + i];
    }
    RenderCut(e, x, y);
    OwsHasNothing(e.before);
    OwsHasNothing(e.after);
    OpaqueHasNoQuote(x);
    OpaqueHasNoQuote(y);
    WeakPrefixQuotes(e.before, e.tag.value.weak);
    QuotesAround(prefix, x);
    QuotesAround(y, e.after);
    FewQuotesNoMatch(a, text);
    FewQuotesNoMatch(b, text);
    SplitJoin(a, b);
    AnyMatchesConcat(Split(a), Split(b), Quoted(text));
  }

  lemma PlainTag(e: Element, text: string)
    requires WellFormed(e) && e.tag.Some? && ',' !in e.tag.value.text
    ensures AnyMatches(Split(Render(e)), Quoted(text)) <==> e.tag.value.text == text
  {
    var t := e.tag.value;
    OwsHasNothing(e.before);
    OwsHasNothing(e.after);
    assert ',' !in Render(e);
    SplitPlain(Render(e));
    MatchesOne(Render(e), Quoted(text));
    TrimPadded(e.before, RenderTag(t), e.after);
    assert RenderTag(t) == (if t.weak then "W/" + Quoted(t.text) else Quoted(t.text));
    assert TrimWeak(RenderTag(t)) == Quoted(t.text);
    assert Quoted(t.text) == Quoted(text) ==> Quoted(t.text)[1..|t.text| + 1] == Quoted(text)[1..|text| + 1];
    QuotedParts(t.text);
    QuotedParts(text);
  }

  lemma OneElement(e: Element, text: string)
    requires WellFormed(e) && ',' !in text
    ensures AnyMatches(Split(Render(e)), Quoted(text)) <==> e.tag.Some? && e.tag.value.text == text
  {
    if e.tag.None? {
      OwsHasNothing(e.before);
      OwsHasNothing(e.after);
      QuotesConcat(e.before, []);
      QuotesConcat(e.before + [], e.after);
      FewQuotesNoMatch(Render(e), text);
    } else if ',' in e.tag.value.text {
      var s := e.tag.value.text;
      var i :| 0 <= i < |s| && s[i] == ',';
      assert s == s[..i] + [','] + s[i + 1..];
      CommaInTag(e, s[..i], s[i + 1..], text);
    } else {
      PlainTag(e, text);
    }
  }

  lemma {:induction false} AllElements(es: seq<Element>, text: string)
    requires es != [] && (forall i | 0 <= i < |es| :: WellFormed(es[i])) && ',' !in text
    ensures AnyMatches(Split(RenderList(es)), Quoted(text)) <==> ListMatches(es, text)
    decreases |es|
  {
    OneElement(es[0], text);
    if |es| > 1 {
      AllElements(es[1..], text);
      SplitJoin(Render(es[0]), RenderList(es[1..]));
      AnyMatchesConcat(Split(Render(es[0])), Split(RenderList(es[1..])), Quoted(text));
      if i :| 0 <= i < |es| && es[i].tag.Some? && es[i].tag.value.text == text {
        assert i > 0 ==> es[1..][i - 1] == es[i];
      }
      if i :| 0 <= i < |es[1..]| && es[1..][i].tag.Some? && es[1..][i].tag.value.text == text {
        assert es[i + 1] == es[1..][i];
      }
    }
  }

  lemma ElementIsNotWildcard(e: Element)
    requires WellFormed(e)
    ensures TrimSpace(Render(e)) != "*"
  {
    OwsHasNothing(e.before);
    OwsHasNothing(e.after);
    if e.tag.Some? {
      var t := RenderTag(e.tag.value);
      assert |t| >= 2 && t[|t| - 1] == '"' && (t[0] == '"' || t[0] == 'W');
      TrimPadded(e.before, t, e.after);
    } else {
      assert Render(e) == e.before + e.after;
      TrimAllSpace(e.before + e.after);
    }
  }

  lemma {:induction false} TrimLeftKeeps(s: string)
    ensures ',' in s ==> ',' in TrimLeft(s)
    decreases |s|
  {
    if s != [] && IsSpace(s[0]) {
      TrimLeftKeeps(s[1..]);
      assert s == [s[0]] + s[1..];
    }
  }

  lemma {:induction false} TrimRightKeeps(s: string)
    ensures ',' in s ==> ',' in TrimRight(s)
    decreases |s|
  {
    if s != [] && IsSpace(s[|s| - 1]) {
      TrimRightKeeps(s[..|s| - 1]);
      assert s == s[..|s| - 1] + [s[|s| - 1]];
    }
  }

  lemma {:induction false} SpaceAndStar(s: string)
    requires TrimSpace(s) == "*"
    ensures ',' !in s
  {
    TrimLeftKeeps(s);
    TrimRightKeeps(TrimLeft(s));
  }

  /** A header of list elements is never mistaken for the wildcard. */
  lemma ListIsNotWildcard(es: seq<Element>)
    requires es != [] && forall i | 0 <= i < |es| :: WellFormed(es[i])
    ensures TrimSpace(RenderList(es)) != "*"
  {
    hide TrimSpace, WellFormed, Render;
    if |es| == 1 {
      ElementIsNotWildcard(es[0]);
    } else {
      assert RenderList(es)[|Render(es[0])|] == ',';
      if TrimSpace(RenderList(es)) == "*" {
        SpaceAndStar(RenderList(es));
      }
    }
  }

  /** For every header the grammar allows, splitting at every comma, also those inside opaque
      tags, gives the answer of weak comparison over the parsed list. */
  lemma SplittingAgreesWithGrammar(es: seq<Element>, text: string)
    requires es != [] && (forall i | 0 <= i < |es| :: WellFormed(es[i])) && ',' !in text
    ensures NotModified(RenderList(es), Quoted(text)) <==> ListMatches(es, text)
  {
    var header, tag := RenderList(es), Quoted(text);
    AllElements(es, text);
    ListIsNotWildcard(es);
    MatchesTrimRight(TrimLeft(header), tag);
    MatchesTrimLeft(header, tag);
    if TrimSpace(header) == [] {
      FewQuotesNoMatch([], text);
    }
  }

  /** The candidate is the tag; one marked as weak is it without the mark. */
  predicate IsListed(piece: string, tag: string) {
    if |piece| >= 2 && piece[0] == 'W' && piece[1] == '/' then piece == "W/" + tag else piece == tag
  }

  lemma OneListed(piece: string, tag: string)
    ensures TrimWeak(piece) == tag <==> IsListed(piece, tag)
  {
    assert "W/" <= piece <==> |piece| >= 2 && piece[0] == 'W' && piece[1] == '/';
    assert "W/" <= piece ==> piece == "W/" + piece[2..];
    assert ("W/" + tag)[2..] == tag;
  }

  /** Some piece between commas, trimmed, is the tag, or the tag marked as weak. */
  ghost predicate Lists(raw: string, tag: string) {
    exists i: nat, j: nat :: IsPiece(raw, i, j) && IsListed(TrimSpace(raw[i..j]), tag)
  }

  lemma ListsMeans(raw: string, tag: string)
    ensures AnyMatches(Split(raw), tag) <==> Lists(raw, tag)
  {
    hide TrimSpace, Split;
    if p :| 0 <= p < |Split(raw)| && TrimWeak(TrimSpace(Split(raw)[p])) == tag {
      var i, j := PartIsPiece(raw, Split(raw)[p]);
      OneListed(TrimSpace(raw[i..j]), tag);
    }
    if i: nat, j: nat :| IsPiece(raw, i, j) && IsListed(TrimSpace(raw[i..j]), tag) {
      AnyPiece(raw, i, j);
      OneListed(TrimSpace(raw[i..j]), tag);
      var p :| 0 <= p < |Split(raw)| && Split(raw)[p] == raw[i..j];
    }
  }

  /** What the matcher answers for any header at all. */
  lemma NotModifiedAnswers(header: string, tag: string)
    ensures NotModified(header, tag) <==>
              !AllSpace(header) && (TrimSpace(header) == "*" || Lists(TrimSpace(header), tag))
  {
    BlankMeans(header);
    ListsMeans(TrimSpace(header), tag);
  }
}
