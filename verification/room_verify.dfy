/** VerifyError: how the meeting-room client decides whether a server reply
    reports success, and which message it shows when it does not. The reply
    is scanned line by line for the first line that starts with SUCCESS or
    ERROR; an error code is looked up exactly, then by its hundred. The
    dialog box itself is left out: the model returns the message and whether
    it would pop up. */
module RoomVerify {
  import opened CText
  import opened RoomLines

  /** What the first marked line of a reply says. */
  datatype Marker = Success | Error(code: int) | NoMarker

  /** The message box VerifyError would show. */
  datatype Report = Report(message: string, popup: bool)

  /** The marker of the line at q: SUCCESS, or ERROR with the code that
      sscanf("ERROR %d") reads (-1 when it reads none), or none. */
  function MarkerAt(s: string, q: nat): (m: Marker)
    requires q <= |s|
    ensures m == Success <==> StartsAt(s, q, "SUCCESS")
    ensures m.Error? ==> StartsAt(s, q, "ERROR") && (ScanInt(s, q + 5).None? ==> m.code == -1)
    ensures m == NoMarker <==> !StartsAt(s, q, "SUCCESS") && !StartsAt(s, q, "ERROR")
  {
    if StartsAt(s, q, "SUCCESS") then Success
    else if StartsAt(s, q, "ERROR") then
      match ScanInt(s, q + 5)
      case Some(v) => Error(v.number)
      case None => Error(-1)
    else NoMarker
  }

  /** The marker of the first marked line at or after the line start p. */
  function ScanReply(s: string, p: nat): (m: Marker)
    requires p <= |s|
    ensures m != NoMarker ==> exists q :: p <= q <= |s| && MarkerAt(s, q) == m
    decreases |s| - p
  {
    if MarkerAt(s, p) != NoMarker then MarkerAt(s, p)
    else match GetNextLine(s, Some(p))
      case None => NoMarker
      case Some(q) => ScanReply(s, q)
  }

  /** The error code VerifyError ends up with: -1 unless an ERROR line
      carries one. */
  function ReplyCode(s: string): int
  {
    match ScanReply(s, 0)
    case Error(c) => c
    case _ => -1
  }

  /** The messages of the known error codes. */
  function KnownMessage(code: int): (r: Option<string>)
    ensures r.Some? ==> r.value != []
  {
    match code
    case 100 => Some("Unable to add user")
    case 101 => Some("No more Shareware users allowed")
    case 102 => Some("No more user allowed")
    case 103 => Some("Incompatible version")
    case 104 => Some("Expired key")
    case 105 => Some("Already used key (report for investigation)")
    case 200 => Some("Unable to send refresh info")
    case 201 => Some("Not online")
    case 300 => Some("Unable to add chat message")
    case 301 => Some("Not online")
    case 400 => Some("Unable to add game")
    case 401 => Some("Not online")
    case 402 => Some("Entry is no longer available")
    case 500 => Some("Unable to add user")
    case 501 => Some("Not online")
    case 502 => Some("Game is no longer available")
    case 503 => Some("Game is full")
    case 600 => Some("Unable to delete game")
    case 601 => Some("Not online")
    case 602 => Some("Game is no longer available")
    case 603 => Some("Not owner")
    case 700 => Some("Unable to leave game")
    case 701 => Some("Not online")
    case 702 => Some("Game is no longer available")
    case 703 => Some("Must join first")
    case 800 => Some("Unable to delete user")
    case 801 => Some("Not online")
    case 900 => Some("Unable to start game")
    case 901 => Some("Not online")
    case 902 => Some("Game is no longer available")
    case 903 => Some("Not owner")
    case 1000 => Some("Unable to add message")
    case 1001 => Some("Not online")
    case 1002 => Some("Not authorized")
    case _ => None
  }

  /** The codes whose message is not shown in a dialog: each is a known
      code that is not a round hundred. */
  function Suppressed(code: int): (silent: bool)
    ensures silent ==> KnownMessage(code).Some? && CRem(code, 100) != 0
  {
    code == 601 || code == 701 || code == 702 || code == 801
  }

  function UnknownCode(code: int): string
  {
    "Unknown error code " + IntToDec(code)
  }

  /** The message for a code, stated without the loop: the communication
      error for -1, else the exact message, else (for a code that is not a
      multiple of 100) the message of its hundred, else "Unknown error code"
      with the last code tried. */
  function ExpectedMessage(code: int): (message: string)
    ensures message != []
  {
    if code == -1 then "Communication error"
    else if KnownMessage(code).Some? then KnownMessage(code).value
    else if CRem(code, 100) == 0 then UnknownCode(code)
    else
      var hundred := code - CRem(code, 100);
      if KnownMessage(hundred).Some? then KnownMessage(hundred).value else UnknownCode(hundred)
  }

  /** VerifyError(pParentWindow, pAnswer): ok tells whether the first marked
      line is SUCCESS; report is the message box shown when it is not and a
      parent window is given (hasWindow). */
  method VerifyError(reply: string, hasWindow: bool) returns (ok: bool, report: Option<Report>)
    ensures ok <==> ScanReply(reply, 0) == Success
    ensures ok || !hasWindow ==> report == None
    ensures !ok && hasWindow ==>
              report == Some(Report(ExpectedMessage(ReplyCode(reply)), !Suppressed(ReplyCode(reply))))
  {
    var code;
    ok, code := ReadStatus(reply);
    report := None;
    if !ok && hasWindow {
      var message, popup := ErrorMessage(code);
      report := Some(Report(message, popup));
    }
  }

  /** The first loop of VerifyError: walks the lines until one starts with
      SUCCESS or ERROR and reads the error code after ERROR. */
  method ReadStatus(reply: string) returns (ok: bool, code: int)
    ensures ok <==> ScanReply(reply, 0) == Success
    ensures !ok ==> code == ReplyCode(reply)
  {
    ok := false;
    code := -1;
    var ptr: Ptr := Some(0);
    while ptr.Some?
      invariant ValidPtr(reply, ptr)
      invariant ptr.Some? ==> ScanReply(reply, ptr.value) == ScanReply(reply, 0)
      invariant ptr.None? ==> ScanReply(reply, 0) == NoMarker
      invariant !ok && code == -1
      decreases if ptr.None? then 0 else |reply| + 1 - ptr.value
    {
      var p := ptr.value;
      if StartsAt(reply, p, "SUCCESS") {
        ok := true;
        return;
      } else if StartsAt(reply, p, "ERROR") {
        var scanned := ScanInt(reply, p + 5);
        if scanned.Some? {
          code := scanned.value.number;
        }
        return;
      }
      ptr := GetNextLine(reply, ptr);
    }
  }

  /** The second loop of VerifyError: the message and the popup flag for an
      error code, retrying once with the code's hundred. */
  method ErrorMessage(first: int) returns (message: string, popup: bool)
    ensures message == ExpectedMessage(first)
    ensures popup == !Suppressed(first)
  {
    popup := true;
    message := "";
    var done := false;
    var code := first;
    if code == -1 {
      message := "Communication error";
      done := true;
    } else {
      LookupIsExpected(first);
    }
    while !done
      invariant !done ==> first != -1 && popup && Lookup(code) == ExpectedMessage(first)
      invariant !done && code != first ==> !Suppressed(first) && CRem(code, 100) == 0
      invariant done ==> message == ExpectedMessage(first) && popup == !Suppressed(first)
      decreases !done, CRem(code, 100) != 0
    {
      LookupStep(code);
      var known := KnownMessage(code);
      if known.Some? {
        message := known.value;
        popup := !Suppressed(code);
        done := true;
      } else if CRem(code, 100) == 0 {
        message := UnknownCode(code);
        done := true;
      } else {
        // Retry with the code's hundred.
        HundredIsRound(code);
        code := code - CRem(code, 100);
      }
    }
  }

  /** The lookup the second loop performs from a code: its message, else
      for a multiple of 100 "Unknown error code", else the lookup of its
      hundred. */
  function Lookup(code: int): (message: string)
    ensures message != []
    decreases CRem(code, 100) != 0
  {
    if KnownMessage(code).Some? then KnownMessage(code).value
    else if CRem(code, 100) == 0 then UnknownCode(code)
    else
      HundredIsRound(code);
      Lookup(code - CRem(code, 100))
  }

  /** One round of the second loop: a known code gives its message, an
      unknown multiple of 100 "Unknown error code", and any other unknown
      code the lookup of its hundred; only known codes are suppressed. */
  lemma LookupStep(code: int)
    ensures KnownMessage(code).Some? ==> Lookup(code) == KnownMessage(code).value
    ensures KnownMessage(code).None? && CRem(code, 100) == 0 ==> Lookup(code) == UnknownCode(code)
    ensures KnownMessage(code).None? && CRem(code, 100) != 0 ==>
      Lookup(code) == Lookup(code - CRem(code, 100)) && CRem(code - CRem(code, 100), 100) == 0
    ensures Suppressed(code) ==> KnownMessage(code).Some?
  {
    HundredIsRound(code);
  }

  /** The loop's lookup gives the message stated without the loop. */
  lemma LookupIsExpected(code: int)
    requires code != -1
    ensures Lookup(code) == ExpectedMessage(code)
  {
    if KnownMessage(code).None? && CRem(code, 100) != 0 {
      var hundred := code - CRem(code, 100);
      HundredIsRound(code);
      assert Lookup(hundred) == if KnownMessage(hundred).Some? then KnownMessage(hundred).value else UnknownCode(hundred);
    }
  }

  /** Taking away C's remainder leaves a multiple of 100, so the second
      round of the lookup is the last. */
  lemma HundredIsRound(code: int)
    ensures CRem(code - CRem(code, 100), 100) == 0
  {
  }

  /** The scan returns the marker of the first marked line start at or
      after p. */
  lemma {:induction false} FirstMarkedLineDecides(s: string, p: nat, q: nat)
    requires IsLineStart(s, p) && FirstMarkedFrom(s, p, q)
    ensures ScanReply(s, p) == MarkerAt(s, q)
    decreases |s| - p
  {
    if q != p {
      NextLineIsNextStart(s, p);
      var n := GetNextLine(s, Some(p)).value;
      assert FirstMarkedFrom(s, n, q);
      FirstMarkedLineDecides(s, n, q);
    }
  }

  /** With no marked line start at or after p, the scan finds no marker. */
  lemma {:induction false} UnmarkedLinesGiveNoMarker(s: string, p: nat)
    requires IsLineStart(s, p)
    requires forall r :: p <= r && IsLineStart(s, r) ==> MarkerAt(s, r) == NoMarker
    ensures ScanReply(s, p) == NoMarker
    decreases |s| - p
  {
    NextLineIsNextStart(s, p);
    var next := GetNextLine(s, Some(p));
    if next.Some? {
      UnmarkedLinesGiveNoMarker(s, next.value);
    }
  }

  /** A marker found by the scan belongs to the first marked line start at
      or after p. */
  lemma {:induction false} MarkerHasFirstLine(s: string, p: nat)
    requires IsLineStart(s, p) && ScanReply(s, p) != NoMarker
    ensures exists q :: FirstMarkedFrom(s, p, q)
    decreases |s| - p
  {
    if MarkerAt(s, p) == NoMarker {
      NextLineIsNextStart(s, p);
      var n := GetNextLine(s, Some(p)).value;
      MarkerHasFirstLine(s, n);
      var q :| FirstMarkedFrom(s, n, q);
      forall r | p <= r < q && IsLineStart(s, r)
        ensures MarkerAt(s, r) == NoMarker
      {
        if r != p {
          assert n <= r;
        }
      }
      assert FirstMarkedFrom(s, p, q);
    } else {
      assert FirstMarkedFrom(s, p, p);
    }
  }

  /** q is the first line start at or after p that carries a marker. */
  predicate FirstMarkedFrom(s: string, p: nat, q: nat)
  {
    && p <= q && IsLineStart(s, q) && MarkerAt(s, q) != NoMarker
    && forall r :: p <= r < q && IsLineStart(s, r) ==> MarkerAt(s, r) == NoMarker
  }

  /** VerifyError succeeds exactly when some line starts with SUCCESS and no
      earlier line starts with SUCCESS or ERROR. */
  lemma VerifySucceedsIff(s: string)
    ensures ScanReply(s, 0) == Success <==>
              exists q :: FirstMarkedFrom(s, 0, q) && MarkerAt(s, q) == Success
  {
    assert IsLineStart(s, 0);
    if ScanReply(s, 0) == Success {
      MarkerHasFirstLine(s, 0);
    }
    forall q | FirstMarkedFrom(s, 0, q)
      ensures ScanReply(s, 0) == MarkerAt(s, q)
    {
      FirstMarkedLineDecides(s, 0, q);
    }
  }

  /** A reply without any SUCCESS or ERROR line leaves the code at -1 and
      gives the communication error. */
  lemma UnmarkedReplyIsCommunicationError(s: string)
    requires forall r :: IsLineStart(s, r) ==> MarkerAt(s, r) == NoMarker
    ensures ScanReply(s, 0) == NoMarker
    ensures ReplyCode(s) == -1
    ensures ExpectedMessage(ReplyCode(s)) == "Communication error"
  {
    assert IsLineStart(s, 0);
    UnmarkedLinesGiveNoMarker(s, 0);
  }

  /** An unknown code that is not a round hundred gets its hundred's
      message; the dialog is hidden only for 601, 701, 702 and 801. */
  lemma MessageFallsBackToHundred(code: int)
    requires code != -1 && KnownMessage(code).None? && CRem(code, 100) != 0
    ensures ExpectedMessage(code) == ExpectedMessage(code - CRem(code, 100))
    ensures !Suppressed(code)
  {
    var hundred := code - CRem(code, 100);
    HundredIsRound(code);
    assert hundred != -1;
  }
}
