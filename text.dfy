/** The Java string operations the import parser and the configuration rely
    on: Integer.toString, Integer.parseInt, String.trim, String.replace of
    one character, and String.split with a literal separator. */
module Text {
  import opened Common

  predicate IsDigit(c: char)
  {
    '0' <= c <= '9'
  }

  predicate AllDigits(s: string)
  {
    forall i :: 0 <= i < |s| ==> IsDigit(s[i])
  }

  function DigitChar(d: nat): (c: char)
    requires d < 10
    ensures IsDigit(c)
  {
    ('0' as int + d) as char
  }

  function DigitValue(c: char): (d: nat)
    requires IsDigit(c)
    ensures d < 10
  {
    c as int - '0' as int
  }

  /** The decimal digits of n, most significant first, without leading zeros. */
  function Digits(n: nat): (s: string)
    ensures |s| > 0 && AllDigits(s)
  {
    if n < 10 then [DigitChar(n)] else Digits(n / 10) + [DigitChar(n % 10)]
  }

  /** Integer.toString, also what string concatenation writes for an int. */
  function IntToString(n: int): (s: string)
    ensures |s| > 0
    ensures IsDigit(s[|s| - 1])
    ensures IsDigit(s[0]) || s[0] == '-'
    ensures forall i :: 0 <= i < |s| ==> IsDigit(s[i]) || s[i] == '-'
  {
    if n < 0 then "-" + Digits(-n) else Digits(n)
  }

  /** The number a string of decimal digits denotes. */
  function DigitsValue(s: string): nat
    requires AllDigits(s)
  {
    if |s| == 0 then 0 else 10 * DigitsValue(s[..|s| - 1]) + DigitValue(s[|s| - 1])
  }

  /** Integer.parseInt on ASCII text: an optional sign followed by at least
      one digit, denoting a value in the int range; anything else throws
      NumberFormatException. */
  function ParseInt(s: string): (r: Result<int>)
    ensures r.Ok? ==> IsInt32(r.value)
    ensures r.Err? ==> r.fault == NumberFormat
    ensures |s| == 0 ==> r.Err?
  {
    if |s| == 0 then Err(NumberFormat)
    else
      var body := if s[0] == '-' || s[0] == '+' then s[1..] else s;
      if |body| == 0 || !AllDigits(body) then Err(NumberFormat)
      else
        var v := if s[0] == '-' then -(DigitsValue(body) as int) else DigitsValue(body);
        if IsInt32(v) then Ok(v) else Err(NumberFormat)
  }

  lemma {:induction false} DigitsRoundTrip(n: nat)
    ensures DigitsValue(Digits(n)) == n
  {
    if n >= 10 {
      DigitsRoundTrip(n / 10);
      var s := Digits(n);
      assert s[..|s| - 1] == Digits(n / 10);
    }
  }

  /** Integer.parseInt reads back what Integer.toString writes. */
  lemma IntRoundTrip(n: int)
    requires IsInt32(n)
    ensures ParseInt(IntToString(n)) == Ok(n)
  {
    if n < 0 {
      DigitsRoundTrip(-n);
      assert IntToString(n)[1..] == Digits(-n);
    } else {
      DigitsRoundTrip(n);
    }
  }

  /** A few inputs Integer.parseInt rejects. */
  lemma ParseIntRejects()
    ensures ParseInt("").Err? && ParseInt("-").Err? && ParseInt(" 7").Err? && ParseInt("1 ").Err?
  {
    assert !IsDigit(' ');
    assert " 7"[0] == ' ';
    assert "1 "[1] == ' ';
  }

  /** One past the largest int is out of range for Integer.parseInt. */
  lemma ParseIntRejectsOverflow()
    ensures ParseInt("2147483648").Err?
  {
    var s := "2147483648";
    assert DigitsValue(s) == 2147483648 by {
      assert s[..1] == "2";
      assert DigitsValue(s[..1]) == 2;
      assert DigitsValue(s[..2]) == 21 by { assert s[..2][..1] == s[..1]; }
      assert DigitsValue(s[..3]) == 214 by { assert s[..3][..2] == s[..2]; }
      assert DigitsValue(s[..4]) == 2147 by { assert s[..4][..3] == s[..3]; }
      assert DigitsValue(s[..5]) == 21474 by { assert s[..5][..4] == s[..4]; }
      assert DigitsValue(s[..6]) == 214748 by { assert s[..6][..5] == s[..5]; }
      assert DigitsValue(s[..7]) == 2147483 by { assert s[..7][..6] == s[..6]; }
      assert DigitsValue(s[..8]) == 21474836 by { assert s[..8][..7] == s[..7]; }
      assert DigitsValue(s[..9]) == 214748364 by { assert s[..9][..8] == s[..8]; }
      assert s[..10] == s;
      assert s[..10][..9] == s[..9];
    }
  }

  // ---------------------------------------------------------------------------
  // trim and replace
  // ---------------------------------------------------------------------------

  /** String.trim treats every character up to ' ' as blank. */
  predicate IsBlank(c: char)
  {
    c <= ' '
  }

  function TrimStart(s: string): (r: string)
    ensures |r| <= |s|
    ensures |r| > 0 ==> !IsBlank(r[0])
  {
    if |s| > 0 && IsBlank(s[0]) then TrimStart(s[1..]) else s
  }

  function TrimEnd(s: string): (r: string)
    ensures |r| <= |s| && (|r| > 0 ==> r[0] == s[0])
    ensures |r| > 0 ==> !IsBlank(r[|r| - 1])
  {
    if |s| > 0 && IsBlank(s[|s| - 1]) then TrimEnd(s[..|s| - 1]) else s
  }

  /** String.trim: s without its leading and trailing blanks. */
  function Trim(s: string): (r: string)
    ensures |r| <= |s|
    ensures |r| > 0 ==> !IsBlank(r[0]) && !IsBlank(r[|r| - 1])
  {
    TrimEnd(TrimStart(s))
  }

  /** TrimStart drops a run of leading blanks and keeps the rest. */
  lemma {:induction false} TrimStartIsSuffix(s: string)
    ensures exists i :: 0 <= i <= |s| && TrimStart(s) == s[i..] && forall k :: 0 <= k < i ==> IsBlank(s[k])
    decreases |s|
  {
    if |s| > 0 && IsBlank(s[0]) {
      TrimStartIsSuffix(s[1..]);
      var i :| 0 <= i <= |s[1..]| && TrimStart(s[1..]) == s[1..][i..] && forall k :: 0 <= k < i ==> IsBlank(s[1..][k]);
      LeadingBlankStep(s, i);
    } else {
      assert TrimStart(s) == s[0..];
    }
  }

  lemma LeadingBlankStep(s: string, i: nat)
    requires |s| > 0 && IsBlank(s[0]) && i <= |s| - 1
    requires TrimStart(s[1..]) == s[1..][i..] && forall k :: 0 <= k < i ==> IsBlank(s[1..][k])
    ensures TrimStart(s) == s[i + 1..] && forall k :: 0 <= k < i + 1 ==> IsBlank(s[k])
  {
    assert s[1..][i..] == s[i + 1..];
    forall k | 1 <= k < i + 1
      ensures IsBlank(s[k])
    {
      assert s[k] == s[1..][k - 1];
    }
  }

  /** TrimEnd drops a run of trailing blanks and keeps the rest. */
  lemma {:induction false} TrimEndIsPrefix(s: string)
    ensures exists j :: 0 <= j <= |s| && TrimEnd(s) == s[..j] && forall k :: j <= k < |s| ==> IsBlank(s[k])
    decreases |s|
  {
    if |s| > 0 && IsBlank(s[|s| - 1]) {
      var u := s[..|s| - 1];
      TrimEndIsPrefix(u);
      var j :| 0 <= j <= |u| && TrimEnd(u) == u[..j] && forall k :: j <= k < |u| ==> IsBlank(u[k]);
      TrailingBlankStep(s, u, j);
    } else {
      assert TrimEnd(s) == s[..|s|];
    }
  }

  lemma TrailingBlankStep(s: string, u: string, j: nat)
    requires |s| > 0 && IsBlank(s[|s| - 1]) && u == s[..|s| - 1] && j <= |u|
    requires TrimEnd(u) == u[..j] && forall k :: j <= k < |u| ==> IsBlank(u[k])
    ensures TrimEnd(s) == s[..j] && forall k :: j <= k < |s| ==> IsBlank(s[k])
  {
    assert u[..j] == s[..j];
    forall k | j <= k < |u|
      ensures IsBlank(s[k])
    {
      assert s[k] == u[k];
    }
  }

  /** String.trim removes exactly a run of blanks at each end: the result is
      a slice of s with only blanks before and after it. */
  lemma TrimRemovesBlankEnds(s: string)
    ensures exists i, j :: 0 <= i <= j <= |s| && Trim(s) == s[i..j]
              && (forall k :: 0 <= k < i ==> IsBlank(s[k])) && (forall k :: j <= k < |s| ==> IsBlank(s[k]))
  {
    TrimStartIsSuffix(s);
    var i :| 0 <= i <= |s| && TrimStart(s) == s[i..] && forall k :: 0 <= k < i ==> IsBlank(s[k]);
    TrimEndIsPrefix(s[i..]);
    var j :| 0 <= j <= |s[i..]| && TrimEnd(s[i..]) == s[i..][..j] && forall k :: j <= k < |s[i..]| ==> IsBlank(s[i..][k]);
    TrimOfSlices(s, i, j);
  }

  /** The two slices combined: trimming the front at i and then the back at j
      leaves s[i..i + j], with blanks only after it. */
  lemma TrimOfSlices(s: string, i: nat, j: nat)
    requires i <= |s| && TrimStart(s) == s[i..]
    requires j <= |s| - i && TrimEnd(s[i..]) == s[i..][..j]
    requires forall k :: j <= k < |s| - i ==> IsBlank(s[i..][k])
    ensures Trim(s) == s[i..i + j]
    ensures forall k :: i + j <= k < |s| ==> IsBlank(s[k])
  {
    assert s[i..][..j] == s[i..i + j];
    forall k | i + j <= k < |s|
      ensures IsBlank(s[k])
    {
      assert s[k] == s[i..][k - i];
    }
  }

  /** A string that neither starts nor ends with a blank is its own trim. */
  lemma TrimUnchanged(s: string)
    requires |s| > 0 && !IsBlank(s[0]) && !IsBlank(s[|s| - 1])
    ensures Trim(s) == s
  {
  }

  /** Leading blanks do not change the trim. */
  lemma TrimSkipsLeadingBlank(c: char, s: string)
    requires IsBlank(c)
    ensures Trim([c] + s) == Trim(s)
  {
    assert ([c] + s)[1..] == s;
  }

  /** String.replace(c, ""): every occurrence of c taken out. */
  function RemoveAll(s: string, c: char): (r: string)
    ensures c !in r
    ensures |r| <= |s|
  {
    if |s| == 0 then "" else RemoveAll(s[..|s| - 1], c) + (if s[|s| - 1] == c then "" else [s[|s| - 1]])
  }

  lemma {:induction false} RemoveAllAbsent(s: string, c: char)
    requires c !in s
    ensures RemoveAll(s, c) == s
  {
    if |s| > 0 {
      RemoveAllAbsent(s[..|s| - 1], c);
    }
  }

  /** Taking c out keeps every other character, as often as it occurs. */
  lemma {:induction false} RemoveAllKeepsOthers(s: string, c: char, x: char)
    requires x != c
    ensures multiset(RemoveAll(s, c))[x] == multiset(s)[x]
  {
    if |s| > 0 {
      var u := s[..|s| - 1];
      var tail := if s[|s| - 1] == c then "" else [s[|s| - 1]];
      RemoveAllKeepsOthers(u, c, x);
      assert RemoveAll(s, c) == RemoveAll(u, c) + tail;
      assert s == u + [s[|s| - 1]];
      assert multiset(RemoveAll(s, c)) == multiset(RemoveAll(u, c)) + multiset(tail);
      assert multiset(s) == multiset(u) + multiset([s[|s| - 1]]);
    }
  }

  lemma {:induction false} RemoveAllConcat(a: string, b: string, c: char)
    ensures RemoveAll(a + b, c) == RemoveAll(a, c) + RemoveAll(b, c)
    decreases |b|
  {
    if |b| == 0 {
      assert a + b == a;
    } else {
      assert (a + b)[..|a + b| - 1] == a + b[..|b| - 1];
      RemoveAllConcat(a, b[..|b| - 1], c);
    }
  }

  // ---------------------------------------------------------------------------
  // split
  // ---------------------------------------------------------------------------

  /** The pieces of s between the occurrences of sep, scanning left to right. */
  function Pieces(s: string, sep: string): (r: seq<string>)
    requires |sep| > 0
    ensures |r| >= 1
    decreases |s|
  {
    if |s| < |sep| then [s]
    else if s[..|sep|] == sep then [""] + Pieces(s[|sep|..], sep)
    else
      var rest := Pieces(s[1..], sep);
      [[s[0]] + rest[0]] + rest[1..]
  }

  function DropTrailingEmpty(r: seq<string>): (d: seq<string>)
    ensures |d| <= |r| && d == r[..|d|]
    ensures |d| > 0 ==> d[|d| - 1] != ""
    ensures forall k :: |d| <= k < |r| ==> r[k] == ""
  {
    if |r| > 0 && r[|r| - 1] == "" then DropTrailingEmpty(r[..|r| - 1]) else r
  }

  /** String.split with a literal separator: a string without the separator
      comes back whole; otherwise the pieces, less the trailing empty ones. */
  function Split(s: string, sep: string): (r: seq<string>)
    requires |sep| > 0
    ensures sep[0] !in s ==> r == [s]
    ensures |r| <= |Pieces(s, sep)| && r == Pieces(s, sep)[..|r|]
    ensures |Pieces(s, sep)| > 1 ==>
      (|r| > 0 ==> r[|r| - 1] != "") && forall k :: |r| <= k < |Pieces(s, sep)| ==> Pieces(s, sep)[k] == ""
  {
    WholeWithoutSeparator(s, sep);
    var p := Pieces(s, sep);
    if |p| == 1 then p else DropTrailingEmpty(p)
  }

  /** Without the separator's first character, s is one piece. */
  lemma {:induction false} PiecesWithoutSeparator(s: string, sep: string)
    requires |sep| > 0 && sep[0] !in s
    ensures Pieces(s, sep) == [s]
    decreases |s|
  {
    if |s| >= |sep| {
      assert s[..|sep|][0] == s[0];
      PiecesWithoutSeparator(s[1..], sep);
      assert [s[0]] + s[1..] == s;
    }
  }

  lemma WholeWithoutSeparator(s: string, sep: string)
    requires |sep| > 0
    ensures sep[0] !in s ==> Pieces(s, sep) == [s]
  {
    if sep[0] !in s {
      PiecesWithoutSeparator(s, sep);
    }
  }

  /** A head without the separator's first character is the first piece. */
  lemma {:induction false} PiecesAfterHead(head: string, sep: string, rest: string)
    requires |sep| > 0 && sep[0] !in head
    ensures Pieces(head + sep + rest, sep) == [head] + Pieces(rest, sep)
    decreases |head|
  {
    var s := head + sep + rest;
    if |head| == 0 {
      assert s == sep + rest && s[..|sep|] == sep && s[|sep|..] == rest;
    } else {
      assert s[..|sep|][0] == head[0];
      assert s[1..] == head[1..] + sep + rest;
      PiecesAfterHead(head[1..], sep, rest);
      assert [head[0]] + head[1..] == head;
    }
  }

  /** A head and a non-empty field, neither holding the separator's first
      character, split into exactly those two. */
  lemma SplitTwoFields(head: string, sep: string, field: string)
    requires |sep| > 0 && sep[0] !in head && sep[0] !in field && field != ""
    ensures Split(head + sep + field, sep) == [head, field]
  {
    PiecesAfterHead(head, sep, field);
    PiecesWithoutSeparator(field, sep);
    var p := Pieces(head + sep + field, sep);
    assert p == [head, field];
    assert p[|p| - 1] != "";
  }

  /** A first character other than the separator joins the first piece. */
  lemma PiecesCons(c: char, s: string, sep: string)
    requires |sep| == 1 && c != sep[0]
    ensures Pieces([c] + s, sep) == [[c] + Pieces(s, sep)[0]] + Pieces(s, sep)[1..]
  {
    assert ([c] + s)[..1][0] == c;
    assert ([c] + s)[1..] == s;
  }

  /** Splitting at a head free of the separator's first character keeps the
      head as the first element. */
  lemma SplitAfterHead(head: string, sep: string, rest: string)
    requires |sep| > 0 && sep[0] !in head && |head| > 0
    ensures |Split(head + sep + rest, sep)| >= 1
    ensures Split(head + sep + rest, sep)[0] == head
  {
    PiecesAfterHead(head, sep, rest);
    var p := Pieces(head + sep + rest, sep);
    assert |p| >= 2;
    var d := DropTrailingEmpty(p);
    if |d| == 0 {
      DropTrailingEmptyKeepsNonEmpty(p, 0);
    }
  }

  /** DropTrailingEmpty keeps everything up to a non-empty element. */
  lemma {:induction false} DropTrailingEmptyKeepsNonEmpty(r: seq<string>, k: nat)
    requires k < |r| && r[k] != ""
    ensures |DropTrailingEmpty(r)| > k
    decreases |r|
  {
    if r[|r| - 1] == "" {
      DropTrailingEmptyKeepsNonEmpty(r[..|r| - 1], k);
    }
  }
}
