/** Small helpers of the game application: how the main window is kept on
    the virtual screen, how the background is painted into the frame buffer,
    and how a menu label is put together. */
module GameApp {
  import opened CText

  /** Where the main window goes: the configured size is cut to the virtual
      screen, then a position past the screen's right or bottom edge moves
      the window flush against that edge, and a negative position becomes 0.
      Values are reassigned one after the other as in the source. */
  method ClampWindow(xPos: int, yPos: int, xRes: int, yRes: int, winXRes: int, winYRes: int)
    returns (x: int, y: int, w: int, h: int)
    ensures w <= winXRes && h <= winYRes
    ensures w == (if xRes > winXRes then winXRes else xRes)
    ensures h == (if yRes > winYRes then winYRes else yRes)
    ensures 0 <= x && 0 <= y
    ensures 0 <= w && 0 <= winXRes ==> x <= winXRes
    ensures 0 <= h && 0 <= winYRes ==> y <= winYRes
    ensures xPos > winXRes ==> x == (if winXRes - w < 0 then 0 else winXRes - w)
    ensures yPos > winYRes ==> y == (if winYRes - h < 0 then 0 else winYRes - h)
    ensures xPos < 0 && xPos <= winXRes ==> x == 0
    ensures yPos < 0 && yPos <= winYRes ==> y == 0
    ensures 0 <= xPos <= winXRes ==> x == xPos
    ensures 0 <= yPos <= winYRes ==> y == yPos
    ensures xRes <= winXRes ==> w == xRes
    ensures yRes <= winYRes ==> h == yRes
  {
    x, y, w, h := xPos, yPos, xRes, yRes;
    if w > winXRes {
      w := winXRes;
    }
    if h > winYRes {
      h := winYRes;
    }
    if x > winXRes {
      x := winXRes - w;
    }
    if x < 0 {
      x := 0;
    }
    if y > winYRes {
      y := winYRes - h;
    }
    if y < 0 {
      y := 0;
    }
  }

  /** The index where row r of a frame buffer starts when rows are lineLen
      bytes apart. */
  function RowStart(r: nat, lineLen: nat): nat
  {
    if r == 0 then 0 else RowStart(r - 1, lineLen) + lineLen
  }

  /** Rows start lineLen bytes apart: RowStart is r * lineLen. */
  lemma {:induction false} RowStartIsProduct(r: nat, lineLen: nat)
    ensures RowStart(r, lineLen) == r * lineLen
  {
    if r > 0 {
      RowStartIsProduct(r - 1, lineLen);
    }
  }

  /** Every byte of a row comes before the start of any later row. */
  lemma {:induction false} RowBeforeLater(r: nat, y: nat, lineLen: nat)
    requires r < y
    ensures RowStart(r, lineLen) + lineLen <= RowStart(y, lineLen)
    decreases y
  {
    if r < y - 1 {
      RowBeforeLater(r, y - 1, lineLen);
    }
  }

  /** Every row before row y ends before row y starts. */
  lemma RowsBefore(y: nat, lineLen: nat)
    ensures forall r: nat :: r < y ==> RowStart(r, lineLen) + lineLen <= RowStart(y, lineLen)
  {
    forall r: nat | r < y
      ensures RowStart(r, lineLen) + lineLen <= RowStart(y, lineLen)
    {
      RowBeforeLater(r, y, lineLen);
    }
  }

  /** The colour DrawBackground paints: both arms of its choice are 11. */
  const BackgroundColor: bv8 := 11

  /** a[lo..hi] holds the background colour. */
  predicate Painted(a: seq<bv8>, lo: nat, hi: nat)
  {
    forall k :: lo <= k < hi && k < |a| ==> a[k] == BackgroundColor
  }

  /** a and b agree on [lo..hi). */
  predicate Kept(a: seq<bv8>, b: seq<bv8>, lo: nat, hi: nat)
  {
    forall k :: lo <= k < hi && k < |a| && k < |b| ==> a[k] == b[k]
  }

  /** Row r of a, as DrawBackground leaves it: its first xRes bytes painted
      and its padding as it was in b. */
  predicate RowDrawn(a: seq<bv8>, b: seq<bv8>, r: nat, xRes: nat, lineLen: nat)
  {
    && RowStart(r, lineLen) + lineLen <= |a|
    && Painted(a, RowStart(r, lineLen), RowStart(r, lineLen) + xRes)
    && Kept(a, b, RowStart(r, lineLen) + xRes, RowStart(r, lineLen) + lineLen)
  }

  /** DrawBackground: paints the first xRes bytes of each of the yRes rows of
      the frame buffer, walking one pointer along the rows and skipping the
      lineLen - xRes bytes of padding at the end of each; the padding and
      everything after the last row keep their bytes. */
  method DrawBackground(buf: array<bv8>, xRes: nat, yRes: nat, lineLen: nat)
    requires xRes <= lineLen && RowStart(yRes, lineLen) <= buf.Length
    modifies buf
    ensures forall r: nat :: r < yRes ==> RowDrawn(buf[..], old(buf[..]), r, xRes, lineLen)
    ensures Kept(buf[..], old(buf[..]), RowStart(yRes, lineLen), buf.Length)
  {
    RowsBefore(yRes, lineLen);
    var dest := 0;
    var lineStep := lineLen - xRes;
    var y := 0;
    while y < yRes
      invariant 0 <= y <= yRes && dest == RowStart(y, lineLen)
      invariant forall r: nat :: r < y ==> RowDrawn(buf[..], old(buf[..]), r, xRes, lineLen)
      invariant Kept(buf[..], old(buf[..]), dest, buf.Length)
    {
      RowBeforeLater(y, yRes, lineLen);
      RowsBefore(y, lineLen);
      var x := 0;
      while x < xRes
        invariant 0 <= x <= xRes && dest == RowStart(y, lineLen) + x
        invariant forall r: nat :: r < y ==> RowDrawn(buf[..], old(buf[..]), r, xRes, lineLen)
        invariant Painted(buf[..], RowStart(y, lineLen), dest)
        invariant Kept(buf[..], old(buf[..]), dest, buf.Length)
      {
        ghost var before := buf[..];
        buf[dest] := BackgroundColor;
        DrawnRowsStay(before, buf[..], old(buf[..]), y, xRes, lineLen, dest);
        x := x + 1;
        dest := dest + 1;
      }
      dest := dest + lineStep;
      y := y + 1;
    }
  }

  /** Painting a byte at or after row y's start leaves the rows before y as
      they were drawn. */
  lemma DrawnRowsStay(a: seq<bv8>, a': seq<bv8>, b: seq<bv8>, y: nat, xRes: nat, lineLen: nat, i: nat)
    requires xRes <= lineLen && |a'| == |a| && i < |a| && RowStart(y, lineLen) <= i
    requires forall k :: 0 <= k < |a| && k != i ==> a'[k] == a[k]
    requires forall r: nat :: r < y ==> RowDrawn(a, b, r, xRes, lineLen)
    ensures forall r: nat :: r < y ==> RowDrawn(a', b, r, xRes, lineLen)
  {
    forall r: nat | r < y
      ensures RowDrawn(a', b, r, xRes, lineLen)
    {
      RowBeforeLater(r, y, lineLen);
      var s := RowStart(r, lineLen);
      assert RowDrawn(a, b, r, xRes, lineLen);
      assert Painted(a, s, s + xRes) && Kept(a, b, s + xRes, s + lineLen);
      assert forall k :: s <= k < s + lineLen ==> a'[k] == a[k];
    }
  }

  /** The three bytes of "…" (U+2026) in UTF-8, as the label's C string holds
      them. */
  const Ellipsis: string := ['\U{E2}', '\U{80}', '\U{A6}']

  /** MenuFmt: the (translated) text, then "…" when the item opens a dialog,
      then a tab and the key name when it has a shortcut. Translation is the
      identity here. */
  function MenuFmt(txt: string, more: bool, key: Option<string>): (item: string)
    ensures |item| == |txt| + (if more then 3 else 0) + (if key.Some? then 1 + |key.value| else 0)
    ensures item[..|txt|] == txt
    ensures key.Some? ==> item[|item| - |key.value| - 1] == '\t' && item[|item| - |key.value|..] == key.value
  {
    txt + (if more then Ellipsis else "") + (if key.Some? then "\t" + key.value else "")
  }

  /** A menu label taken apart: what precedes the first tab, with a trailing
      "…" removed, and what follows the tab. */
  function ParseLabel(item: string): (string, bool, Option<string>)
  {
    var (head, key) := SplitAtTab(item);
    if |head| >= 3 && head[|head| - 3..] == Ellipsis then (head[..|head| - 3], true, key)
    else (head, false, key)
  }

  /** The index of the first tab at or after k, if any. */
  function TabFrom(item: string, k: nat): (r: Option<nat>)
    requires k <= |item|
    ensures r.Some? ==> k <= r.value < |item| && item[r.value] == '\t'
    decreases |item| - k
  {
    if k == |item| then None
    else if item[k] == '\t' then Some(k)
    else TabFrom(item, k + 1)
  }

  /** The label up to its first tab, and the rest after that tab if any. */
  function SplitAtTab(item: string): (string, Option<string>)
  {
    match TabFrom(item, 0)
    case None => (item, None)
    case Some(i) => (item[..i], Some(item[i + 1..]))
  }

  /** Past a stretch without tabs, the search for a tab goes on at its end. */
  lemma {:induction false} TabFromSkips(item: string, k: nat, n: nat)
    requires k <= n <= |item|
    requires forall j :: k <= j < n ==> item[j] != '\t'
    ensures TabFrom(item, k) == TabFrom(item, n)
    decreases n - k
  {
    if k < n {
      TabFromSkips(item, k + 1, n);
    }
  }

  /** A tab-free text followed by a tab and a key splits back into the two. */
  lemma SplitAtTabAppend(txt: string, rest: Option<string>)
    requires '\t' !in txt
    ensures SplitAtTab(txt + (if rest.Some? then "\t" + rest.value else "")) == (txt, rest)
  {
    var item := txt + (if rest.Some? then "\t" + rest.value else "");
    forall j | 0 <= j < |txt|
      ensures item[j] != '\t'
    {
      assert item[j] == txt[j];
    }
    TabFromSkips(item, 0, |txt|);
    if rest.Some? {
      assert item[|txt|] == '\t';
      assert item[..|txt|] == txt;
      assert item[|txt| + 1..] == rest.value;
    } else {
      assert item == txt;
    }
  }

  /** A menu label built by MenuFmt gives back its parts, for a text without
      a tab that does not itself end in "…". */
  lemma ParseMenuFmt(txt: string, more: bool, key: Option<string>)
    requires '\t' !in txt
    requires !(|txt| >= 3 && txt[|txt| - 3..] == Ellipsis)
    ensures ParseLabel(MenuFmt(txt, more, key)) == (txt, more, key)
  {
    var head := txt + (if more then Ellipsis else "");
    assert '\t' !in head by {
      forall j | 0 <= j < |head|
        ensures head[j] != '\t'
      {
        if j >= |txt| {
          assert head[j] == Ellipsis[j - |txt|];
        } else {
          assert head[j] == txt[j];
        }
      }
    }
    assert MenuFmt(txt, more, key) == head + (if key.Some? then "\t" + key.value else "");
    SplitAtTabAppend(head, key);
    if more {
      assert head[|head| - 3..] == Ellipsis;
      assert head[..|head| - 3] == txt;
    } else {
      assert head == txt;
    }
  }
}
