/**
 * The Python string operations the downloader and the provider rely on,
 * written out over `seq<char>`: `split`, `replace(c, '')`, substring `in`,
 * `strip`, `lower`, `int()`, `str()` of an integer and the `netloc` part of
 * `urllib.parse.urlparse`.
 */
module Text {
  import opened Basics

  // ---------------------------------------------------------------------------
  // s.split(sep) for a one-character separator, and its inverse sep.join(pieces)
  // ---------------------------------------------------------------------------

  function Split(s: string, sep: char): (pieces: seq<string>)
    ensures |pieces| >= 1
    ensures forall i :: 0 <= i < |pieces| ==> sep !in pieces[i]
  {
    if s == [] then [""]
    else
      var rest := Split(s[1..], sep);
      if s[0] == sep then [""] + rest
      else [[s[0]] + rest[0]] + rest[1..]
  }

  function Join(pieces: seq<string>, sep: char): string
  {
    if |pieces| == 0 then ""
    else if |pieces| == 1 then pieces[0]
    else pieces[0] + [sep] + Join(pieces[1..], sep)
  }

  /** Splitting yields one more piece than there are separators. */
  lemma {:induction false} SplitCount(s: string, sep: char)
    ensures |Split(s, sep)| == multiset(s)[sep] + 1
  {
    if s != [] {
      SplitCount(s[1..], sep);
      assert s == [s[0]] + s[1..];
      assert multiset(s) == multiset{s[0]} + multiset(s[1..]);
    }
  }

  /** Joining the pieces back with the separator gives the original text. */
  lemma {:induction false} JoinSplit(s: string, sep: char)
    ensures Join(Split(s, sep), sep) == s
  {
    if s != [] {
      var rest := Split(s[1..], sep);
      JoinSplit(s[1..], sep);
      if s[0] == sep {
        assert ([""] + rest)[1..] == rest;
        assert s == [sep] + s[1..];
      } else if |rest| == 1 {
        assert s == [s[0]] + s[1..];
      } else {
        var pieces := [[s[0]] + rest[0]] + rest[1..];
        assert pieces[1..] == rest[1..];
        assert Join(rest, sep) == rest[0] + [sep] + Join(rest[1..], sep);
        assert s == [s[0]] + s[1..];
      }
    }
  }

  lemma {:induction false} SplitFreePrefix(p: string, t: string, sep: char)
    requires sep !in p
    ensures Split(p + t, sep) == [p + Split(t, sep)[0]] + Split(t, sep)[1..]
  {
    var st := Split(t, sep);
    if p != [] {
      SplitFreePrefix(p[1..], t, sep);
      var rest := Split(p[1..] + t, sep);
      assert rest == [p[1..] + st[0]] + st[1..];
      assert rest[0] == p[1..] + st[0] && rest[1..] == st[1..];
      assert (p + t)[1..] == p[1..] + t && (p + t)[0] == p[0];
      assert Split(p + t, sep) == [[p[0]] + rest[0]] + rest[1..];
      assert [p[0]] + (p[1..] + st[0]) == p + st[0];
    } else {
      assert p + t == t && p + st[0] == st[0];
      assert st == [st[0]] + st[1..];
    }
  }

  /** Splitting a join of separator-free pieces gives the pieces back. */
  lemma {:induction false} SplitJoin(pieces: seq<string>, sep: char)
    requires |pieces| >= 1
    requires forall i :: 0 <= i < |pieces| ==> sep !in pieces[i]
    ensures Split(Join(pieces, sep), sep) == pieces
  {
    if |pieces| == 1 {
      SplitFreePrefix(pieces[0], "", sep);
      assert pieces[0] + "" == pieces[0];
      assert Split("", sep) == [""];
    } else {
      var tail := Join(pieces[1..], sep);
      SplitJoin(pieces[1..], sep);
      SplitFreePrefix(pieces[0], [sep] + tail, sep);
      assert Join(pieces, sep) == pieces[0] + ([sep] + tail);
      assert ([sep] + tail)[1..] == tail;
      var st := Split([sep] + tail, sep);
      assert st == [""] + pieces[1..];
      assert st[0] == "" && st[1..] == pieces[1..];
      assert pieces[0] + "" == pieces[0];
      assert pieces == [pieces[0]] + pieces[1..];
    }
  }

  /** `s.split(c)[0]`: the text before the first `c`, or all of it. */
  function BeforeFirst(s: string, c: char): string
  {
    Split(s, c)[0]
  }

  lemma {:induction false} BeforeFirstShape(s: string, c: char)
    ensures |BeforeFirst(s, c)| <= |s|
    ensures BeforeFirst(s, c) == s[..|BeforeFirst(s, c)|]
    ensures c !in BeforeFirst(s, c)
    ensures |BeforeFirst(s, c)| < |s| ==> s[|BeforeFirst(s, c)|] == c
    ensures c !in s ==> BeforeFirst(s, c) == s
  {
    if s != [] {
      var rest := Split(s[1..], c);
      BeforeFirstShape(s[1..], c);
      if s[0] == c {
        assert Split(s, c) == [""] + rest;
      } else {
        var b := rest[0];
        assert Split(s, c) == [[s[0]] + b] + rest[1..];
        assert BeforeFirst(s, c) == [s[0]] + b;
        assert s == [s[0]] + s[1..];
        assert c !in s ==> c !in s[1..];
      }
    }
  }

  // ---------------------------------------------------------------------------
  // Deleting characters: s.replace(c, '') and re.sub('[...]', '', s)
  // ---------------------------------------------------------------------------

  /** Keeps, in order, the characters of `s` that are not in `cs`. */
  function RemoveChars(s: string, cs: set<char>): (r: string)
    ensures |r| <= |s|
    ensures forall i :: 0 <= i < |r| ==> r[i] !in cs
  {
    if s == [] then []
    else (if s[0] in cs then [] else [s[0]]) + RemoveChars(s[1..], cs)
  }

  lemma {:induction false} RemoveCharsAppend(a: string, b: string, cs: set<char>)
    ensures RemoveChars(a + b, cs) == RemoveChars(a, cs) + RemoveChars(b, cs)
  {
    if a == [] {
      assert a + b == b;
    } else {
      var head := if a[0] in cs then [] else [a[0]];
      RemoveCharsAppend(a[1..], b, cs);
      assert (a + b)[0] == a[0] && (a + b)[1..] == a[1..] + b;
      assert RemoveChars(a + b, cs) == head + RemoveChars(a[1..] + b, cs);
      assert RemoveChars(a, cs) == head + RemoveChars(a[1..], cs);
      assert head + (RemoveChars(a[1..], cs) + RemoveChars(b, cs))
          == (head + RemoveChars(a[1..], cs)) + RemoveChars(b, cs);
    }
  }

  /** Text without any character of `cs` is left as it is. */
  lemma {:induction false} RemoveCharsClean(s: string, cs: set<char>)
    requires forall i :: 0 <= i < |s| ==> s[i] !in cs
    ensures RemoveChars(s, cs) == s
  {
    if s != [] {
      RemoveCharsClean(s[1..], cs);
    }
  }

  /** Every character outside `cs` keeps its number of occurrences; those in `cs` vanish. */
  lemma {:induction false} RemoveCharsCounts(s: string, cs: set<char>, x: char)
    ensures multiset(RemoveChars(s, cs))[x] == if x in cs then 0 else multiset(s)[x]
  {
    if s != [] {
      var head := if s[0] in cs then [] else [s[0]];
      var rest := RemoveChars(s[1..], cs);
      RemoveCharsCounts(s[1..], cs, x);
      assert RemoveChars(s, cs) == head + rest;
      assert multiset(head + rest)[x] == multiset(head)[x] + multiset(rest)[x];
      assert s == [s[0]] + s[1..];
      assert multiset(s)[x] == multiset([s[0]])[x] + multiset(s[1..])[x];
      assert multiset(head)[x] == if s[0] in cs || s[0] != x then 0 else 1;
    }
  }

  // ---------------------------------------------------------------------------
  // Substring test: `p in s`
  // ---------------------------------------------------------------------------

  predicate ContainsSub(s: string, p: string)
  {
    p <= s || (s != [] && ContainsSub(s[1..], p))
  }

  /** `p` occurs in `s` starting at position `i`. */
  predicate OccursAt(s: string, p: string, i: int)
  {
    0 <= i && i + |p| <= |s| && s[i..i + |p|] == p
  }

  /** `ContainsSub` holds exactly when `p` occurs at some position of `s`. */
  lemma {:induction false} ContainsSubAt(s: string, p: string)
    ensures ContainsSub(s, p) <==> exists i :: OccursAt(s, p, i)
  {
    if s != [] {
      ContainsSubAt(s[1..], p);
      if ContainsSub(s[1..], p) {
        var i :| OccursAt(s[1..], p, i);
        assert s[i + 1..i + 1 + |p|] == s[1..][i..i + |p|];
        assert OccursAt(s, p, i + 1);
      }
      if p <= s {
        assert OccursAt(s, p, 0);
      }
      if exists i :: OccursAt(s, p, i) {
        var i :| OccursAt(s, p, i);
        if i > 0 {
          assert s[1..][i - 1..i - 1 + |p|] == s[i..i + |p|];
          assert OccursAt(s[1..], p, i - 1);
        }
      }
    } else {
      if p <= s {
        assert OccursAt(s, p, 0);
      }
      if exists i :: OccursAt(s, p, i) {
        var i :| OccursAt(s, p, i);
        assert p == [] && p <= s;
      }
    }
  }

  // ---------------------------------------------------------------------------
  // str.strip() and str.lower()
  // ---------------------------------------------------------------------------

  /** The characters for which Python's `str.isspace()` holds, which `str.strip()` removes. */
  predicate IsSpace(c: char)
  {
    || c == ' ' || c == '\t' || c == '\n' || c == '\r' || c == '\U{0B}' || c == '\U{0C}'
    || ('\U{1C}' <= c <= '\U{1F}')
    || c == '\U{85}' || c == '\U{A0}' || c == '\U{1680}'
    || ('\U{2000}' <= c <= '\U{200A}')
    || c == '\U{2028}' || c == '\U{2029}' || c == '\U{202F}' || c == '\U{205F}' || c == '\U{3000}'
  }

  function StripStart(s: string): string
  {
    if s != [] && IsSpace(s[0]) then StripStart(s[1..]) else s
  }

  function StripEnd(s: string): string
  {
    if s != [] && IsSpace(s[|s| - 1]) then StripEnd(s[..|s| - 1]) else s
  }

  function Strip(s: string): string
  {
    StripEnd(StripStart(s))
  }

  lemma {:induction false} StripStartShape(s: string)
    ensures |StripStart(s)| <= |s| && StripStart(s) == s[|s| - |StripStart(s)|..]
    ensures forall k :: 0 <= k < |s| - |StripStart(s)| ==> IsSpace(s[k])
    ensures StripStart(s) == [] || !IsSpace(StripStart(s)[0])
  {
    if s != [] && IsSpace(s[0]) {
      var t := StripStart(s[1..]);
      StripStartShape(s[1..]);
      assert StripStart(s) == t;
      assert s[1..][|s| - 1 - |t|..] == s[|s| - |t|..];
      assert forall k :: 1 <= k < |s| ==> s[1..][k - 1] == s[k];
    }
  }

  lemma {:induction false} StripEndShape(s: string)
    ensures |StripEnd(s)| <= |s| && StripEnd(s) == s[..|StripEnd(s)|]
    ensures forall k :: |StripEnd(s)| <= k < |s| ==> IsSpace(s[k])
    ensures StripEnd(s) == [] || !IsSpace(StripEnd(s)[|StripEnd(s)| - 1])
  {
    if s != [] && IsSpace(s[|s| - 1]) {
      StripEndShape(s[..|s| - 1]);
    }
  }

  /** `s.strip()` is the infix of `s` left after removing blank runs at both ends. */
  lemma StripShape(s: string)
    ensures exists i, j :: (0 <= i <= j <= |s| && Strip(s) == s[i..j]
      && (forall k :: 0 <= k < i ==> IsSpace(s[k]))
      && (forall k :: j <= k < |s| ==> IsSpace(s[k])))
    ensures Strip(s) == [] || (!IsSpace(Strip(s)[0]) && !IsSpace(Strip(s)[|Strip(s)| - 1]))
  {
    var t := StripStart(s);
    StripStartShape(s);
    StripEndShape(t);
    var i := |s| - |t|;
    var j := i + |StripEnd(t)|;
    assert Strip(s) == s[i..j];
    forall k | j <= k < |s| ensures IsSpace(s[k]) {
      assert s[k] == t[k - i];
    }
    if Strip(s) != [] {
      assert Strip(s)[0] == t[0];
    }
  }

  function LowerChar(c: char): char
  {
    if 'A' <= c <= 'Z' then (c as int + 32) as char else c
  }

  /** `s.lower()` on ASCII text. */
  function Lower(s: string): string
  {
    seq(|s|, i requires 0 <= i < |s| => LowerChar(s[i]))
  }

  /** A language name lower-cases to "english" exactly when it is "english" in any mix of cases. */
  lemma LowerIsEnglish(s: string)
    ensures Lower(s) == "english" <==>
      |s| == 7 && forall i :: 0 <= i < 7 ==> s[i] == "english"[i] || s[i] == "ENGLISH"[i]
  {
    if |s| == 7 && forall i :: 0 <= i < 7 ==> s[i] == "english"[i] || s[i] == "ENGLISH"[i] {
      assert forall i :: 0 <= i < 7 ==> Lower(s)[i] == "english"[i];
    }
    if Lower(s) == "english" {
      forall i | 0 <= i < 7
        ensures s[i] == "english"[i] || s[i] == "ENGLISH"[i]
      {
        assert LowerChar(s[i]) == "english"[i];
      }
    }
  }

  // ---------------------------------------------------------------------------
  // int(s) on an already stripped string, and str(n)
  // ---------------------------------------------------------------------------

  predicate IsDigit(c: char)
  {
    '0' <= c <= '9'
  }

  predicate AllDigits(s: string)
  {
    forall i :: 0 <= i < |s| ==> IsDigit(s[i])
  }

  function DigitsValue(ds: string): nat
    requires AllDigits(ds)
  {
    if ds == [] then 0
    else DigitsValue(ds[..|ds| - 1]) * 10 + (ds[|ds| - 1] as int - '0' as int)
  }

  function ParseDigits(s: string): Option<nat>
  {
    if s != [] && AllDigits(s) then Some(DigitsValue(s)) else None
  }

  /** `int(s)`: an optional sign followed by at least one decimal digit. */
  function ParseInt(s: string): Option<int>
  {
    if s != [] && (s[0] == '+' || s[0] == '-') then
      match ParseDigits(s[1..])
      case None => None
      case Some(v) =>
        var n: int := if s[0] == '-' then -(v as int) else v;
        Some(n)
    else ParseDigits(s)
  }

  /** Python's `int(s)`, which ignores surrounding whitespace. */
  function IntOf(s: string): Option<int>
  {
    ParseInt(Strip(s))
  }

  function DigitChar(d: nat): char
    requires d < 10
  {
    ('0' as int + d) as char
  }

  function NatDigits(n: nat): (ds: string)
    ensures ds != [] && AllDigits(ds)
  {
    if n < 10 then [DigitChar(n)] else NatDigits(n / 10) + [DigitChar(n % 10)]
  }

  /** `str(n)` (and `f'{n}'`) of an integer. */
  function Decimal(n: int): string
  {
    if n < 0 then "-" + NatDigits(-n) else NatDigits(n)
  }

  lemma {:induction false} NatDigitsValue(n: nat)
    ensures DigitsValue(NatDigits(n)) == n
  {
    if n >= 10 {
      NatDigitsValue(n / 10);
      var ds := NatDigits(n);
      assert ds[..|ds| - 1] == NatDigits(n / 10);
    }
  }

  /** Reading back the decimal form of an integer gives the integer. */
  lemma DecimalRoundTrip(n: int)
    ensures ParseInt(Decimal(n)) == Some(n)
  {
    if n < 0 {
      NatDigitsValue(-n);
      assert Decimal(n)[1..] == NatDigits(-n);
    } else {
      NatDigitsValue(n);
    }
  }

  /** `strip()` leaves a text alone when neither end is blank. */
  lemma StripUnblank(s: string)
    requires s == [] || (!IsSpace(s[0]) && !IsSpace(s[|s| - 1]))
    ensures Strip(s) == s
  {
  }

  /** `int(str(n)) == n`: Python's `int()` reads back the decimal form of an integer. */
  lemma IntOfDecimal(n: int)
    ensures IntOf(Decimal(n)) == Some(n)
  {
    var ds := NatDigits(if n < 0 then -n else n);
    assert IsDigit(ds[0]) && IsDigit(ds[|ds| - 1]);
    assert Decimal(n)[|Decimal(n)| - 1] == ds[|ds| - 1];
    StripUnblank(Decimal(n));
    DecimalRoundTrip(n);
  }

  // ---------------------------------------------------------------------------
  // urllib.parse.urlparse(url).netloc
  // ---------------------------------------------------------------------------

  /** The longest prefix of `s` free of the characters in `stops`. */
  function TakeUntil(s: string, stops: set<char>): (r: string)
    ensures |r| <= |s| && r == s[..|r|]
    ensures forall i :: 0 <= i < |r| ==> r[i] !in stops
    ensures |r| < |s| ==> s[|r|] in stops
  {
    if s == [] || s[0] in stops then [] else [s[0]] + TakeUntil(s[1..], stops)
  }

  predicate IsAsciiAlpha(c: char)
  {
    'a' <= c <= 'z' || 'A' <= c <= 'Z'
  }

  predicate IsSchemeChar(c: char)
  {
    IsAsciiAlpha(c) || IsDigit(c) || c == '+' || c == '-' || c == '.'
  }

  /** What `urlsplit` leaves after taking off a scheme (`http:`, `https:`, ...), if there is one. */
  function AfterScheme(url: string): string
  {
    var i := |TakeUntil(url, {':'})|;
    if 0 < i < |url| && IsAsciiAlpha(url[0]) && (forall k :: 0 <= k < i ==> IsSchemeChar(url[k]))
    then url[i + 1..]
    else url
  }

  /** The network location: after `//`, up to the first `/`, `?` or `#`; empty without `//`. */
  function Netloc(url: string): (host: string)
    ensures forall i :: 0 <= i < |host| ==> host[i] !in {'/', '?', '#'}
  {
    var rest := AfterScheme(url);
    if |rest| >= 2 && rest[..2] == "//" then TakeUntil(rest[2..], {'/', '?', '#'}) else ""
  }

  /** The host of `https://host/...` is `host`. */
  lemma NetlocOfHttps(host: string, tail: string)
    requires forall i :: 0 <= i < |host| ==> host[i] !in {'/', '?', '#'}
    requires tail == [] || tail[0] in {'/', '?', '#'}
    ensures Netloc("https://" + host + tail) == host
  {
    var after := "//" + host + tail;
    assert "https://" + host + tail == "https:" + after;
    AfterHttps(after);
    assert after[..2] == "//" && after[2..] == host + tail;
    TakeUntilPrefix(host, tail, {'/', '?', '#'});
  }

  /** The scheme of `https:...` is taken off. */
  lemma AfterHttps(after: string)
    ensures AfterScheme("https:" + after) == after
  {
    var url := "https:" + after;
    assert url == "https" + ([':'] + after);
    TakeUntilPrefix("https", [':'] + after, {':'});
    assert |TakeUntil(url, {':'})| == 5;
    assert url[0] == 'h' && url[1] == 't' && url[2] == 't' && url[3] == 'p' && url[4] == 's';
    assert url[6..] == after;
  }

  lemma {:induction false} TakeUntilPrefix(p: string, t: string, stops: set<char>)
    requires forall i :: 0 <= i < |p| ==> p[i] !in stops
    requires t == [] || t[0] in stops
    ensures TakeUntil(p + t, stops) == p
  {
    if p != [] {
      TakeUntilPrefix(p[1..], t, stops);
      assert (p + t)[1..] == p[1..] + t;
    } else {
      assert p + t == t;
    }
  }
}
