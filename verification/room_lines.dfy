/** The line scanner of the Internet Meeting Room client: a server reply is
    one NUL-terminated buffer that the client walks one line at a time with
    GetLineLen, GetLine and GetNextLine. A `const char *` into the reply is
    an index into it, and NULL is None. */
module RoomLines {
  import opened CText

  /** A pointer into the reply buffer s: NULL, or an index no further than
      the terminator. */
  type Ptr = Option<nat>

  predicate ValidPtr(s: string, ptr: Ptr)
  {
    ptr.Some? ==> ptr.value <= |s|
  }

  /** A character that ends a line: the terminator, CR or LF. */
  predicate IsLineEnd(c: char)
  {
    c == '\0' || c == '\r' || c == '\n'
  }

  /** CR or LF: the characters after which a new line begins. */
  predicate IsBreak(c: char)
  {
    c == '\r' || c == '\n'
  }

  /** The length of the line that starts at p: the number of characters
      before the first '\0', '\r' or '\n'. */
  function LineLen(s: string, p: nat): (n: nat)
    requires p <= |s|
    ensures p + n <= |s|
    ensures forall i :: p <= i < p + n ==> !IsLineEnd(s[i])
    ensures IsLineEnd(At(s, p + n))
    decreases |s| - p
  {
    if IsLineEnd(At(s, p)) then 0 else 1 + LineLen(s, p + 1)
  }

  /** GetLineLen: counts the characters of the line at src, and is 0 for a
      NULL pointer. */
  method GetLineLen(s: string, src: Ptr) returns (n: int)
    requires ValidPtr(s, src)
    ensures n >= 0
    ensures src.None? ==> n == 0
    ensures src.Some? ==> n == LineLen(s, src.value)
  {
    n := 0;
    if src.Some? {
      var k := src.value;
      while !IsLineEnd(At(s, k))
        invariant src.value <= k <= |s|
        invariant n == k - src.value
        invariant LineLen(s, src.value) == n + LineLen(s, k)
        decreases |s| - k
      {
        n := n + 1;
        k := k + 1;
      }
    }
  }

  /** GetLine: a copy of the line at src, without its line end. */
  function GetLine(s: string, src: Ptr): (line: string)
    requires ValidPtr(s, src)
    ensures forall i :: 0 <= i < |line| ==> !IsLineEnd(line[i])
    ensures src.None? ==> line == ""
    ensures src.Some? ==> StartsAt(s, src.value, line) && IsLineEnd(At(s, src.value + |line|))
  {
    if src.None? then "" else s[src.value..src.value + LineLen(s, src.value)]
  }

  /** GetNextLine: the start of the line after the one at src, or NULL when
      src is NULL or its line ends at the terminator. */
  function GetNextLine(s: string, src: Ptr): (next: Ptr)
    requires ValidPtr(s, src)
    ensures ValidPtr(s, next)
    ensures next.None? <==> src.None? || At(s, src.value + LineLen(s, src.value)) == '\0'
    ensures next.Some? ==> next.value == src.value + LineLen(s, src.value) + 1
  {
    match src
    case None => None
    case Some(p) =>
      var e := p + LineLen(s, p);
      if At(s, e) == '\0' then None else Some(e + 1)
  }

  /** A position where GetNextLine's walk from the start of the reply stops:
      the start, or just after a CR or LF with no terminator before it. */
  predicate IsLineStart(s: string, q: nat)
  {
    q <= |s| && (q == 0 || (IsBreak(s[q - 1]) && forall k :: 0 <= k < q ==> s[k] != '\0'))
  }

  /** One step of GetNextLine goes from a line start to the very next line
      start, and returns NULL only when no line start follows. */
  lemma NextLineIsNextStart(s: string, p: nat)
    requires IsLineStart(s, p)
    ensures GetNextLine(s, Some(p)).Some? ==> p < GetNextLine(s, Some(p)).value
    ensures GetNextLine(s, Some(p)).Some? ==> IsLineStart(s, GetNextLine(s, Some(p)).value)
    ensures forall r :: p < r && IsLineStart(s, r) ==>
              GetNextLine(s, Some(p)).Some? && GetNextLine(s, Some(p)).value <= r
  {
    var e := p + LineLen(s, p);
    forall r | p < r && IsLineStart(s, r)
      ensures GetNextLine(s, Some(p)).Some? && GetNextLine(s, Some(p)).value <= r
    {
      assert IsBreak(s[r - 1]);
      assert e <= r - 1 < |s|;
      assert s[e] != '\0';
    }
    if GetNextLine(s, Some(p)).Some? {
      assert e < |s| && IsBreak(s[e]);
      forall k | 0 <= k < e + 1
        ensures s[k] != '\0'
      {
        if k < p {
          assert s[k] != '\0';
        } else if k < e {
          assert !IsLineEnd(s[k]);
        }
      }
    }
  }

  /** A "\r\n" pair ends the current line and is followed by an empty line:
      GetNextLine stops between the CR and the LF. */
  lemma CrLfYieldsEmptyLine(s: string, p: nat)
    requires p <= |s|
    requires p + LineLen(s, p) + 1 < |s|
    requires s[p + LineLen(s, p)] == '\r' && s[p + LineLen(s, p) + 1] == '\n'
    ensures GetNextLine(s, Some(p)) == Some(p + LineLen(s, p) + 1)
    ensures GetLine(s, GetNextLine(s, Some(p))) == ""
    ensures GetNextLine(s, GetNextLine(s, Some(p))) == Some(p + LineLen(s, p) + 2)
  {
    var q := p + LineLen(s, p) + 1;
    assert LineLen(s, q) == 0;
  }
}
