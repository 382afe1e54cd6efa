/** C-string and C-library text primitives that the meeting-room protocol and
    the game-name codec rely on: reading past the end of a NUL-terminated
    buffer, isspace/isdigit, the integer conversion shared by sscanf("%d")
    and atoi, sscanf("%Ns"), strchr and printf("%d"). Integers are unbounded:
    the undefined behaviour of an overflowing conversion is not modelled. */
module CText {

  /** The character at index i of a C string whose characters are s: the
      terminating '\0' (and, for the model, anything past it) reads as '\0'. */
  function At(s: string, i: nat): char
  {
    if i < |s| then s[i] else '\0'
  }

  /** isspace() in the "C" locale. */
  predicate IsSpace(c: char)
  {
    c == ' ' || c == '\t' || c == '\n' || c == '\U{0B}' || c == '\U{0C}' || c == '\r'
  }

  predicate IsDigit(c: char)
  {
    '0' <= c <= '9'
  }

  /** The value of a decimal digit (0 for any other character). */
  function DigitValue(c: char): (d: nat)
    ensures d < 10
  {
    if IsDigit(c) then (c - '0') as nat else 0
  }

  function DigitChar(d: nat): (c: char)
    requires d < 10
    ensures IsDigit(c) && DigitValue(c) == d
  {
    ('0' as int + d) as char
  }

  predicate AllDigits(d: string)
  {
    forall i :: 0 <= i < |d| ==> IsDigit(d[i])
  }

  /** The number that the n characters of s starting at k denote as decimal
      digits. */
  function NumberAt(s: string, k: nat, n: nat): nat
    requires k + n <= |s|
    decreases n
  {
    if n == 0 then 0 else NumberAt(s, k, n - 1) * 10 + DigitValue(s[k + n - 1])
  }

  /** Index of the first character at or after i that is not white space. */
  function SkipSpace(s: string, i: nat): (j: nat)
    requires i <= |s|
    ensures i <= j <= |s|
    ensures forall k {:trigger IsSpace(s[k])} :: i <= k < j ==> IsSpace(s[k])
    ensures j == |s| || !IsSpace(s[j])
    decreases |s| - i
  {
    if i < |s| && IsSpace(s[i]) then SkipSpace(s, i + 1) else i
  }

  /** Length of the maximal run of digits that starts at i. */
  function DigitRun(s: string, i: nat): (n: nat)
    requires i <= |s|
    ensures i + n <= |s|
    ensures forall k {:trigger IsDigit(s[k])} :: i <= k < i + n ==> IsDigit(s[k])
    ensures i + n == |s| || !IsDigit(s[i + n])
    decreases |s| - i
  {
    if i < |s| && IsDigit(s[i]) then 1 + DigitRun(s, i + 1) else 0
  }

  /** One "%d" conversion of sscanf (and the conversion inside atoi) starting
      at i: optional white space, an optional sign, then at least one digit.
      Yields the value and the index just past the digits, or None when the
      conversion fails. */
  function ScanInt(s: string, i: nat): (r: Option<Scanned>)
    requires i <= |s|
    ensures r.Some? ==> i < r.value.next <= |s|
  {
    var j := SkipSpace(s, i);
    var signed := j < |s| && (s[j] == '-' || s[j] == '+');
    var k := if signed then j + 1 else j;
    var n := DigitRun(s, k);
    if n == 0 then None
    else
      var v: int := NumberAt(s, k, n);
      Some(Scanned(if signed && s[j] == '-' then -v else v, k + n))
  }

  /** A %d conversion ends on a digit and takes the whole run of digits;
      one whose first non-blank character is a digit succeeds with a
      non-negative number, and one whose first non-blank character is
      neither a digit nor a sign fails. */
  lemma ScanIntSpec(s: string, i: nat)
    requires i <= |s|
    ensures var r := ScanInt(s, i);
      && (r.Some? ==> IsDigit(s[r.value.next - 1]))
      && (r.Some? ==> r.value.next == |s| || !IsDigit(s[r.value.next]))
      && (IsDigit(At(s, SkipSpace(s, i))) ==> r.Some? && r.value.number >= 0)
      && (var c := At(s, SkipSpace(s, i)); !IsDigit(c) && c != '-' && c != '+' ==> r.None?)
  {
  }

  /** atoi(): the %d conversion, or 0 when there is no number. */
  function Atoi(s: string, i: nat): (n: int)
    requires i <= |s|
    ensures var c := At(s, SkipSpace(s, i)); !IsDigit(c) && c != '-' && c != '+' ==> n == 0
    ensures IsDigit(At(s, SkipSpace(s, i))) ==> n >= 0
  {
    ScanIntSpec(s, i);
    match ScanInt(s, i)
    case Some(p) => p.number
    case None => 0
  }

  /** One "%Ns" conversion: skip white space, then read 1..max characters up
      to white space or the terminator. */
  function ScanWord(s: string, i: nat, max: nat): (r: Option<(string, nat)>)
    requires i <= |s|
    ensures r.Some? ==> 0 < |r.value.0| <= max && r.value.1 <= |s|
    ensures r.Some? ==> forall k :: 0 <= k < |r.value.0| ==> !IsSpace(r.value.0[k]) && r.value.0[k] != '\0'
    ensures r.Some? ==> r.value.1 - |r.value.0| == SkipSpace(s, i) && r.value.0 == s[SkipSpace(s, i)..r.value.1]
    ensures r.Some? ==> |r.value.0| == max || At(s, r.value.1) == '\0' || IsSpace(At(s, r.value.1))
    ensures r.None? <==> max == 0 || At(s, SkipSpace(s, i)) == '\0'
  {
    var j := SkipSpace(s, i);
    var n := WordRun(s, j, max);
    if n == 0 then None else Some((s[j..j + n], j + n))
  }

  function WordRun(s: string, i: nat, max: nat): (n: nat)
    requires i <= |s|
    ensures n <= max && i + n <= |s|
    ensures forall k :: i <= k < i + n ==> !IsSpace(s[k]) && s[k] != '\0'
    ensures n == max || i + n == |s| || IsSpace(s[i + n]) || s[i + n] == '\0'
    ensures n == 0 <==> max == 0 || i == |s| || IsSpace(s[i]) || s[i] == '\0'
    decreases max
  {
    if max > 0 && i < |s| && !IsSpace(s[i]) && s[i] != '\0' then 1 + WordRun(s, i + 1, max - 1) else 0
  }

  /** The index of the terminator of the C string at i: the first '\0' at
      or after i, or the end of s. */
  function NulFrom(s: string, i: nat): (n: nat)
    requires i <= |s|
    ensures i <= n <= |s|
    ensures forall k :: i <= k < n ==> s[k] != '\0'
    ensures n == |s| || s[n] == '\0'
    decreases |s| - i
  {
    if i == |s| || s[i] == '\0' then i else NulFrom(s, i + 1)
  }

  /** strchr(s + i, c) for c != '\0': the first index at or after i holding c
      before the terminator, or None (NULL). */
  function Strchr(s: string, i: nat, c: char): (r: Option<nat>)
    requires i <= |s| && c != '\0'
    ensures r.Some? ==> i <= r.value < |s| && s[r.value] == c
    ensures r.Some? ==> forall k :: i <= k < r.value ==> s[k] != c && s[k] != '\0'
    ensures r.None? ==> forall k :: i <= k < NulFrom(s, i) ==> s[k] != c
    decreases |s| - i
  {
    if i == |s| || s[i] == '\0' then None
    else if s[i] == c then Some(i)
    else Strchr(s, i + 1, c)
  }

  /** strchr finds c at q when no c and no terminator come before it. */
  lemma {:induction false} StrchrAt(s: string, i: nat, c: char, q: nat)
    requires c != '\0' && i <= q < |s| && s[q] == c
    requires forall k :: i <= k < q ==> s[k] != c && s[k] != '\0'
    ensures Strchr(s, i, c) == Some(q)
    decreases q - i
  {
    if i < q {
      StrchrAt(s, i + 1, c, q);
    }
  }

  /** The run of word characters starting at i is exactly the word w, when
      w is all of max or the run stops right after it. */
  lemma {:induction false} WordRunOver(s: string, i: nat, w: string, max: nat)
    requires StartsAt(s, i, w) && |w| <= max
    requires forall k :: 0 <= k < |w| ==> !IsSpace(w[k]) && w[k] != '\0'
    requires |w| == max || At(s, i + |w|) == '\0' || IsSpace(At(s, i + |w|))
    ensures WordRun(s, i, max) == |w|
    decreases |w|
  {
    if |w| > 0 {
      assert s[i] == w[0];
      StartsAtTail(s, i, w[0], w[1..]) by {
        assert [w[0]] + w[1..] == w;
      }
      WordRunOver(s, i + 1, w[1..], max - 1);
    }
  }

  /** "%Ns" at a blank reads the word w after it, when w has 1 to max
      characters, none of them white space or '\0', and the conversion
      stops right after it. */
  lemma ScanWordAfterBlank(s: string, j: nat, w: string, max: nat)
    requires j < |s| && IsSpace(s[j]) && StartsAt(s, j + 1, w)
    requires 0 < |w| <= max && forall k :: 0 <= k < |w| ==> !IsSpace(w[k]) && w[k] != '\0'
    requires |w| == max || At(s, j + 1 + |w|) == '\0' || IsSpace(At(s, j + 1 + |w|))
    ensures ScanWord(s, j, max) == Some((w, j + 1 + |w|))
  {
    assert s[j + 1] == w[0];
    assert SkipSpace(s, j) == j + 1;
    WordRunOver(s, j + 1, w, max);
  }

  /** strncmp(s + i, w, |w|) == 0 for a word w without '\0'. */
  predicate StartsAt(s: string, i: nat, w: string)
  {
    i + |w| <= |s| && s[i..i + |w|] == w
  }

  /** C's remainder a % b for b > 0: truncating, so it takes the sign of a
      (Dafny's % is Euclidean and never negative). */
  function CRem(a: int, b: int): (r: int)
    requires b > 0
    ensures -b < r < b
    ensures a >= 0 ==> r >= 0
    ensures a <= 0 ==> r <= 0
  {
    if a >= 0 then a % b else -((-a) % b)
  }

  /** printf("%d") of a non-negative number. */
  function NatToDec(n: nat): (d: string)
    ensures 0 < |d| && AllDigits(d)
  {
    if n < 10 then [DigitChar(n)] else NatToDec(n / 10) + [DigitChar(n % 10)]
  }

  /** printf("%d"). */
  function IntToDec(n: int): (d: string)
    ensures 0 < |d|
  {
    if n < 0 then "-" + NatToDec(-n) else NatToDec(n)
  }

  /** Reading back the digits printf("%d") wrote for m gives m. */
  lemma {:induction false} NatToDecValue(s: string, k: nat, m: nat)
    requires StartsAt(s, k, NatToDec(m))
    ensures NumberAt(s, k, |NatToDec(m)|) == m
  {
    var d := NatToDec(m);
    if m >= 10 {
      var hi := NatToDec(m / 10);
      assert d == hi + [DigitChar(m % 10)];
      assert s[k..k + |hi|] == d[..|hi|] == hi;
      NatToDecValue(s, k, m / 10);
      assert s[k + |d| - 1] == d[|d| - 1];
    } else {
      assert s[k] == d[0];
    }
  }

  /** The run of digits starting at i is exactly the digits d, when no digit
      follows them. */
  lemma {:induction false} DigitRunOver(s: string, i: nat, d: string)
    requires AllDigits(d) && StartsAt(s, i, d)
    requires i + |d| == |s| || !IsDigit(s[i + |d|])
    ensures DigitRun(s, i) == |d|
    decreases |d|
  {
    if |d| > 0 {
      assert s[i] == d[0];
      assert StartsAt(s, i + 1, d[1..]) by {
        assert s[i + 1..i + 1 + |d[1..]|] == s[i..i + |d|][1..];
      }
      DigitRunOver(s, i + 1, d[1..]);
    }
  }

  /** sscanf("%d") reads back exactly what printf("%d") wrote, provided no
      digit follows it. */
  lemma ScanIntDec(s: string, i: nat, n: int)
    requires StartsAt(s, i, IntToDec(n))
    requires i + |IntToDec(n)| == |s| || !IsDigit(s[i + |IntToDec(n)|])
    ensures ScanInt(s, i) == Some(Scanned(n, i + |IntToDec(n)|))
  {
    if n < 0 {
      ScanNegativeDec(s, i, -n);
    } else {
      ScanNonNegativeDec(s, i, n);
    }
  }

  /** ScanIntDec with the digits d of n named by the caller. */
  lemma ScanIntDigits(s: string, i: nat, n: int, d: string)
    requires d == IntToDec(n) && StartsAt(s, i, d) && (i + |d| == |s| || !IsDigit(s[i + |d|]))
    ensures ScanInt(s, i) == Some(Scanned(n, i + |d|))
  {
    ScanIntDec(s, i, n);
  }

  lemma ScanNegativeDec(s: string, i: nat, m: nat)
    requires m > 0
    requires StartsAt(s, i, "-" + NatToDec(m))
    requires i + 1 + |NatToDec(m)| == |s| || !IsDigit(s[i + 1 + |NatToDec(m)|])
    ensures ScanInt(s, i) == Some(Scanned(-(m as int), i + 1 + |NatToDec(m)|))
  {
    var digits := NatToDec(m);
    StartsAtTail(s, i, '-', digits);
    DigitRunOver(s, i + 1, digits);
    NatToDecValue(s, i + 1, m);
    ScanNegative(s, i, |digits|, m);
  }

  /** White space before a conversion is skipped. */
  lemma ScanIntSkipsSpace(s: string, i: nat)
    requires i < |s| && IsSpace(s[i])
    ensures ScanInt(s, i) == ScanInt(s, i + 1)
  {
    assert SkipSpace(s, i) == SkipSpace(s, i + 1);
  }

  /** printf("%d") writes only digits and a leading '-'. */
  lemma IntToDecChars(n: int)
    ensures forall k :: 0 <= k < |IntToDec(n)| ==> IntToDec(n)[k] == '-' || IsDigit(IntToDec(n)[k])
  {
    if n < 0 {
      var d := NatToDec(-n);
      assert forall k :: 1 <= k < |IntToDec(n)| ==> IntToDec(n)[k] == d[k - 1];
    }
  }

  /** At p, s holds the words ws one after the other, a single blank
      between two of them, as printf("%s %s ... %s") writes them. */
  predicate WordsAt(s: string, p: nat, ws: seq<string>)
    decreases |ws|
  {
    && p <= |s|
    && (ws != [] ==>
      && StartsAt(s, p, ws[0])
      && (|ws| > 1 ==>
        && p + |ws[0]| < |s| && s[p + |ws[0]|] == ' '
        && WordsAt(s, p + |ws[0]| + 1, ws[1..])))
  }

  /** The index just past the words printed at p. */
  function WordsEnd(s: string, p: nat, ws: seq<string>): (q: nat)
    requires WordsAt(s, p, ws)
    ensures p <= q <= |s|
    decreases |ws|
  {
    if ws == [] then p
    else if |ws| == 1 then p + |ws[0]|
    else WordsEnd(s, p + |ws[0]| + 1, ws[1..])
  }

  /** Where each word of WordsAt starts: the first at p, each next one a
      blank after the one before; the last ends at WordsEnd. */
  lemma {:induction false} WordsStarts(s: string, p: nat, ws: seq<string>) returns (ps: seq<nat>)
    requires WordsAt(s, p, ws) && ws != []
    ensures |ps| == |ws| && ps[0] == p
    ensures forall j {:trigger StartsAt(s, ps[j], ws[j])} :: 0 <= j < |ws| ==> StartsAt(s, ps[j], ws[j])
    ensures forall j {:trigger ws[j]} :: 0 <= j < |ws| - 1 ==>
      ps[j] + |ws[j]| < |s| && s[ps[j] + |ws[j]|] == ' ' && ps[j + 1] == ps[j] + |ws[j]| + 1
    ensures WordsEnd(s, p, ws) == ps[|ws| - 1] + |ws[|ws| - 1]|
    decreases |ws|
  {
    if |ws| == 1 {
      ps := [p];
    } else {
      var rest := WordsStarts(s, p + |ws[0]| + 1, ws[1..]);
      ps := [p] + rest;
      forall j | 1 <= j < |ws|
        ensures ps[j] == rest[j - 1] && ws[j] == ws[1..][j - 1]
      {
      }
    }
  }

  /** A word that starts with c at i is c at i followed by the rest of the
      word at i + 1. */
  lemma StartsAtTail(s: string, i: nat, c: char, w: string)
    requires StartsAt(s, i, [c] + w)
    ensures i < |s| && s[i] == c && StartsAt(s, i + 1, w)
  {
    assert s[i] == ([c] + w)[0];
    assert s[i + 1..i + 1 + |w|] == s[i..i + 1 + |w|][1..];
  }

  lemma ScanNonNegativeDec(s: string, i: nat, m: nat)
    requires StartsAt(s, i, NatToDec(m))
    requires i + |NatToDec(m)| == |s| || !IsDigit(s[i + |NatToDec(m)|])
    ensures ScanInt(s, i) == Some(Scanned(m, i + |NatToDec(m)|))
  {
    var d := NatToDec(m);
    assert IsDigit(s[i]) by {
      assert s[i] == d[0];
    }
    DigitRunOver(s, i, d);
    NatToDecValue(s, i, m);
    ScanNonNegative(s, i, |d|, m);
  }

  /** A run of n > 0 digits with value v at i converts to v. */
  lemma ScanNonNegative(s: string, i: nat, n: nat, v: nat)
    requires i < |s| && IsDigit(s[i]) && DigitRun(s, i) == n && NumberAt(s, i, n) == v
    ensures ScanInt(s, i) == Some(Scanned(v, i + n))
  {
    assert SkipSpace(s, i) == i;
  }

  /** A '-' followed by a run of n > 0 digits with value v at i converts to
      -v. */
  lemma ScanNegative(s: string, i: nat, n: nat, v: nat)
    requires i + 1 <= |s| && s[i] == '-' && DigitRun(s, i + 1) == n && n > 0 && NumberAt(s, i + 1, n) == v
    ensures ScanInt(s, i) == Some(Scanned(-(v as int), i + 1 + n))
  {
    assert SkipSpace(s, i) == i;
  }

  /** atoi() of a printed number. */
  lemma AtoiDec(s: string, i: nat, n: int)
    requires StartsAt(s, i, IntToDec(n))
    requires i + |IntToDec(n)| == |s| || !IsDigit(s[i + |IntToDec(n)|])
    ensures Atoi(s, i) == n
  {
    ScanIntDec(s, i, n);
  }

  datatype Option<+T> = None | Some(value: T)

  /** A successful numeric conversion: the number and the index after it. */
  datatype Scanned = Scanned(number: int, next: nat)
}
