/** ParseState: the meeting-room client's reading of a refresh reply into its
    fixed-size tables of users and games. A reply is a sequence of records,
    each starting on its own line: TIME_STAMP, USER <entry> DEL|NEW, GAME
    <entry> DEL|NEW [<id>] and CHAT, where NEW and CHAT records carry their
    data on the following lines. The functions below state what one record
    does to a value view of the room; the class InternetRoom updates its
    arrays in place and is proved to follow them. */
module RoomState {
  import opened CText
  import opened RoomLines
  import opened RoomChat

  /** An entry of mClientList. */
  datatype Client = Client(valid: bool, majorId: int, minorId: int, game: int, name: string)

  /** An entry of mGameList. clients is the fixed-size array of the game's
      users, of which the first nbClient are meaningful; the option strings
      of the game are not modelled. */
  datatype Game = Game(
    valid: bool, id: int, nbClient: int, nbLap: int, allowWeapons: int, port: nat,
    name: string, track: string, availCode: int, ipAddr: string, clients: seq<int>)

  /** The bits of ParseState's result: which part of the room changed. */
  datatype Change = UsersModified | GamesModified | ChatModified

  /** The state ParseState reads and writes. */
  datatype RoomView = RoomView(clients: seq<Client>, games: seq<Game>, timeStamp: int, chat: string)

  /** The effect of one record: the new view, the line pointer after the
      lines the record consumed, and what changed. */
  datatype Progress = Progress(view: RoomView, ptr: Ptr, changes: set<Change>)

  /** The result of a whole reply. */
  datatype Parsed = Parsed(view: RoomView, changes: set<Change>)

  /** The users and the game after the client list of a GAME NEW record. */
  datatype Roster = Roster(clients: seq<Client>, game: Game)

  /** The numbers of a USER or GAME header line: the entry, the operation
      word and, for GAME, the optional id (-1 when absent). */
  datatype Header = Header(entry: int, op: string, id: int)

  /** A game whose first nbClient users are user entries. */
  predicate GameWf(g: Game, cap: nat, nbClients: nat)
  {
    && |g.clients| == cap
    && 0 <= g.nbClient <= cap
    && forall j :: 0 <= j < g.nbClient ==> 0 <= g.clients[j] < nbClients
  }

  /** The invariant the tables keep: every game lists at most cap users, all
      of them entries of the user table. */
  predicate Wf(v: RoomView, cap: nat)
  {
    forall i :: 0 <= i < |v.games| ==> GameWf(v.games[i], cap, |v.clients|)
  }

  /** "%u" stores its number modulo 2^32. */
  function Unsigned32(x: int): (u: nat)
    ensures u < 0x1_0000_0000
    ensures 0 <= x < 0x1_0000_0000 ==> u == x
    ensures (x - u) % 0x1_0000_0000 == 0
    ensures x == -1 ==> u == 0xFFFF_FFFF
  {
    x % 0x1_0000_0000
  }

  /** sscanf("<word> %d %9s %u") after the word ending at i: None unless
      the entry and the operation word both convert. */
  function ReadHeader(s: string, i: nat): (r: Option<Header>)
    requires i <= |s|
    ensures r.Some? ==> 0 < |r.value.op| <= 9
  {
    match ScanInt(s, i)
    case None => None
    case Some(e) =>
      match ScanWord(s, e.next, 9)
      case None => None
      case Some(w) =>
        var id := ScanInt(s, w.1);
        Some(Header(e.number, w.0, if id.Some? then id.value.number else -1))
  }

  /** sscanf(line, "%d-%d") over ids preset to -1. */
  function ReadIds(line: string): (ids: (int, int))
    ensures var c := At(line, SkipSpace(line, 0)); !IsDigit(c) && c != '-' && c != '+' ==> ids == (-1, -1)
    ensures At(line, 0) == '-' ==> ids.0 <= 0
  {
    ScanIntSpec(line, 0);
    match ScanInt(line, 0)
    case None => (-1, -1)
    case Some(major) =>
      if At(line, major.next) == '-' && major.next < |line| then
        match ScanInt(line, major.next + 1)
        case None => (major.number, -1)
        case Some(minor) => (major.number, minor.number)
      else (major.number, -1)
  }

  /** The numbers that a run of "%d" conversions separated by white space
      reads from i, at most max of them: sscanf stops at the first one that
      fails. A NULL pointer reads none. */
  function ReadInts(s: string, at: Ptr, max: nat): (r: seq<int>)
    requires ValidPtr(s, at)
    ensures |r| <= max
    decreases max
  {
    if max == 0 || at.None? then []
    else match ScanInt(s, at.value)
      case None => []
      case Some(x) => [x.number] + ReadInts(s, Some(x.next), max - 1)
  }

  /** The pointer past the next ' ' (strchr then ++), or NULL. */
  function AfterSpace(s: string, p: nat): (r: Ptr)
    requires p <= |s|
    ensures ValidPtr(s, r)
    ensures r.Some? ==> p < r.value && s[r.value - 1] == ' '
    ensures r.Some? ==> forall k :: p <= k < r.value - 1 ==> s[k] != ' ' && s[k] != '\0'
    ensures r.None? ==> forall k :: p <= k < NulFrom(s, p) ==> s[k] != ' '
  {
    match Strchr(s, p, ' ')
    case None => None
    case Some(i) => Some(i + 1)
  }

  /** The user indices the client-list loop of GAME NEW reads in k
      iterations from at: one atoi per iteration, each followed by a move
      past the next space, until the pointer becomes NULL. */
  function Tokens(s: string, at: Ptr, k: int): (t: seq<int>)
    requires ValidPtr(s, at)
    ensures |t| <= (if k > 0 then k else 0)
    decreases if k > 0 then k else 0
  {
    if k <= 0 || at.None? then []
    else [Atoi(s, at.value)] + Tokens(s, AfterSpace(s, at.value), k - 1)
  }

  /** One index idx read by the client-list loop of GAME NEW: when it is an
      entry of the user table it is listed in the game, whose count grows by
      one, and that user's game becomes e; any other index changes nothing. */
  function Admit(r: Roster, e: int, idx: int): (r': Roster)
    requires 0 <= r.game.nbClient < |r.game.clients|
    ensures |r'.clients| == |r.clients| && |r'.game.clients| == |r.game.clients|
    ensures 0 <= idx < |r.clients| ==>
      && r'.game == r.game.(clients := r'.game.clients, nbClient := r.game.nbClient + 1)
      && r'.game.clients == r.game.clients[r.game.nbClient := idx]
      && r'.clients == r.clients[idx := r.clients[idx].(game := e)]
    ensures !(0 <= idx < |r.clients|) ==> r' == r
  {
    if 0 <= idx < |r.clients| then
      Roster(r.clients[idx := r.clients[idx].(game := e)],
             r.game.(clients := r.game.clients[r.game.nbClient := idx], nbClient := r.game.nbClient + 1))
    else r
  }

  /** Room for k more listed users. */
  predicate HasRoom(r: Roster, k: int)
  {
    0 <= r.game.nbClient && r.game.nbClient + (if k > 0 then k else 0) <= |r.game.clients|
  }

  /** The table updates of the client-list loop for the indices t it reads,
      in order. */
  function Enlist(r: Roster, e: int, t: seq<int>): Roster
    requires HasRoom(r, |t|)
    decreases |t|
  {
    if t == [] then r else Enlist(Admit(r, e, t[0]), e, t[1..])
  }

  /** The client-list loop of GAME NEW as the source runs it, for k more
      iterations from the pointer at: while the pointer is not NULL, read a
      user index with atoi, admit it, and move past the next space. */
  function Walk(r: Roster, e: int, s: string, at: Ptr, k: int): (r': Roster)
    requires ValidPtr(s, at) && HasRoom(r, k)
    ensures |r'.clients| == |r.clients| && |r'.game.clients| == |r.game.clients|
    ensures r.game.nbClient <= r'.game.nbClient <= r.game.nbClient + (if k > 0 then k else 0)
    decreases if k > 0 then k else 0
  {
    if k <= 0 then r
    else if at.None? then Walk(r, e, s, at, k - 1)
    else Walk(Admit(r, e, Atoi(s, at.value)), e, s, AfterSpace(s, at.value), k - 1)
  }

  /** A walk from a non-NULL pointer admits the index there, then walks on
      from past the next space. */
  lemma WalkAdmits(r: Roster, e: int, s: string, p: nat, k: int, r1: Roster)
    requires p <= |s| && k > 0 && HasRoom(r, k) && r1 == Admit(r, e, Atoi(s, p))
    ensures HasRoom(r1, k - 1)
    ensures Walk(r, e, s, Some(p), k) == Walk(r1, e, s, AfterSpace(s, p), k - 1)
  {
  }

  /** A walk from a NULL pointer skips an iteration. */
  lemma WalkSkips(r: Roster, e: int, s: string, k: int)
    requires k > 0 && HasRoom(r, k)
    ensures Walk(r, e, s, None, k) == Walk(r, e, s, None, k - 1)
  {
  }

  /** Enlisting x and then t is admitting x, then enlisting t. */
  lemma EnlistCons(r: Roster, e: int, x: int, t: seq<int>)
    requires HasRoom(r, |t| + 1)
    ensures Enlist(r, e, [x] + t) == Enlist(Admit(r, e, x), e, t)
  {
    var u := [x] + t;
    assert u[0] == x && u[1..] == t;
  }

  /** Once the pointer is NULL the remaining iterations change nothing. */
  lemma {:induction false} WalkNull(r: Roster, e: int, s: string, k: int)
    requires HasRoom(r, k)
    ensures Walk(r, e, s, None, k) == r
    decreases if k > 0 then k else 0
  {
    if k > 0 {
      WalkNull(r, e, s, k - 1);
    }
  }

  /** The loop as the source runs it performs the table updates of the
      indices it reads. */
  lemma {:induction false} WalkIsEnlist(r: Roster, e: int, s: string, at: Ptr, k: int)
    requires ValidPtr(s, at) && HasRoom(r, k)
    ensures Walk(r, e, s, at, k) == Enlist(r, e, Tokens(s, at, k))
    decreases if k > 0 then k else 0
  {
    if k > 0 {
      if at.None? {
        WalkNull(r, e, s, k);
      } else {
        var idx := Atoi(s, at.value);
        var next := AfterSpace(s, at.value);
        var tail := Tokens(s, next, k - 1);
        assert Tokens(s, at, k) == [idx] + tail;
        EnlistCons(r, e, idx, tail);
        WalkIsEnlist(Admit(r, e, idx), e, s, next, k - 1);
        assert Walk(r, e, s, at, k) == Walk(Admit(r, e, idx), e, s, next, k - 1);
      }
    }
  }

  /** TIME_STAMP: the number after the word, when there is one, becomes the
      refresh time stamp. */
  function StepTime(v: RoomView, s: string, p: nat): (r: Progress)
    requires p + 10 <= |s|
    ensures r.ptr == Some(p) && r.changes == {}
    ensures r.view == v.(timeStamp := r.view.timeStamp)
  {
    match ScanInt(s, p + 10)
    case None => Progress(v, Some(p), {})
    case Some(x) => Progress(v.(timeStamp := x.number), Some(p), {})
  }

  /** USER: DEL invalidates the entry; NEW reads the "major-minor" ids and
      the name from the next two lines into a fresh valid entry. */
  function StepUser(v: RoomView, s: string, p: nat): (r: Progress)
    requires p + 4 <= |s|
    ensures ValidPtr(s, r.ptr) && (r.ptr.Some? ==> p <= r.ptr.value)
    ensures r.view == v.(clients := r.view.clients) && |r.view.clients| == |v.clients|
    ensures r.changes <= {UsersModified}
  {
    match ReadHeader(s, p + 4)
    case None => Progress(v, Some(p), {})
    case Some(h) =>
      var e := h.entry;
      if !(0 <= e < |v.clients|) then Progress(v, Some(p), {})
      else if h.op == "DEL" then
        Progress(v.(clients := v.clients[e := v.clients[e].(valid := false)]), Some(p), {UsersModified})
      else if h.op == "NEW" then
        var idLine := GetNextLine(s, Some(p));
        if idLine.None? then Progress(v, None, {})
        else
          var ids := ReadIds(GetLine(s, idLine));
          var nameLine := GetNextLine(s, idLine);
          var c := Client(true, ids.0, ids.1, -1, GetLine(s, nameLine));
          Progress(v.(clients := v.clients[e := c]), nameLine, {UsersModified})
      else Progress(v, Some(p), {})
  }

  /** The client count of GAME NEW capped at cap. */
  function CappedCount(n: int, cap: nat): (nb: int)
    ensures nb <= cap && nb <= n
    ensures n <= cap ==> nb == n
  {
    if n > cap then cap else n
  }

  /** The part of GAME NEW that follows the address line, given the numbers
      ints read from the line at optLine: when exactly 11 of them convert,
      the weapons flag, and the client list read from the next line. */
  function GameOptions(v: RoomView, g: Game, e: nat, s: string, optLine: Ptr, ints: seq<int>, cap: nat): (r: Progress)
    requires ValidPtr(s, optLine) && e < |v.games|
    requires |g.clients| == cap && g.nbClient == 0
    ensures ValidPtr(s, r.ptr) && (optLine.Some? ==> r.ptr.Some? ==> optLine.value <= r.ptr.value)
    ensures optLine.None? ==> r.ptr.None?
    ensures r.changes == {GamesModified}
    ensures r.view.timeStamp == v.timeStamp && r.view.chat == v.chat
    ensures |r.view.clients| == |v.clients| && |r.view.games| == |v.games|
  {
    if |ints| != 11 then Progress(v.(games := v.games[e := g]), optLine, {GamesModified})
    else
      var g1 := g.(allowWeapons := ints[2]);
      var nb := CappedCount(ints[3], cap);
      if nb == 0 then Progress(v.(games := v.games[e := g1]), optLine, {GamesModified})
      else
        var listLine := GetNextLine(s, optLine);
        if listLine.None? then Progress(v.(games := v.games[e := g1]), listLine, {GamesModified})
        else
          var r := Walk(Roster(v.clients, g1), e, s, listLine, nb);
          Progress(v.(clients := r.clients, games := v.games[e := r.game]), listLine, {GamesModified})
  }

  /** The entry GAME NEW writes before its client list: valid, the header's
      id, no users, weapons off, the name, track, availability and address,
      and the port and lap count when the numbers line has them (else
      (unsigned) -1 and one lap). */
  function FreshGame(g: Game, id: int, name: string, track: string, ipAddr: string, availCode: int, ints: seq<int>): (r: Game)
    ensures r.valid && r.nbClient == 0 && r.clients == g.clients
  {
    g.(valid := true, id := id, nbClient := 0,
       nbLap := if |ints| >= 2 then ints[1] else 1,
       allowWeapons := 0,
       port := Unsigned32(if |ints| >= 1 then ints[0] else -1),
       name := name, track := track, availCode := availCode, ipAddr := ipAddr)
  }

  /** GAME NEW once its name line is known: the entry becomes valid with the
      header's id, no users, one lap, weapons off and port (unsigned) -1,
      then takes the name, track and address lines and the numbers on the
      line after them. */
  function NewGameStep(v: RoomView, s: string, e: nat, id: int, nameLine: nat, cap: nat, checkAvail: string -> int): (r: Progress)
    requires nameLine <= |s| && e < |v.games| && |v.games[e].clients| == cap
    ensures ValidPtr(s, r.ptr) && (r.ptr.Some? ==> nameLine <= r.ptr.value)
    ensures r.changes == {GamesModified}
    ensures r.view.timeStamp == v.timeStamp && r.view.chat == v.chat
    ensures |r.view.clients| == |v.clients| && |r.view.games| == |v.games|
  {
    var trackLine := GetNextLine(s, Some(nameLine));
    var addrLine := GetNextLine(s, trackLine);
    var optLine := GetNextLine(s, addrLine);
    var ints := ReadInts(s, optLine, 12);
    var track := GetLine(s, trackLine);
    var g := FreshGame(v.games[e], id, GetLine(s, Some(nameLine)), track, GetLine(s, addrLine), checkAvail(track), ints);
    GameOptions(v.(games := v.games[e := g]), g, e, s, optLine, ints, cap)
  }

  /** GAME: DEL invalidates the entry; NEW fills it from the lines that
      follow. */
  function StepGame(v: RoomView, s: string, p: nat, cap: nat, checkAvail: string -> int): (r: Progress)
    requires p + 4 <= |s| && Wf(v, cap)
    ensures ValidPtr(s, r.ptr) && (r.ptr.Some? ==> p <= r.ptr.value)
    ensures r.changes <= {GamesModified}
    ensures r.view.timeStamp == v.timeStamp && r.view.chat == v.chat
    ensures |r.view.clients| == |v.clients| && |r.view.games| == |v.games|
  {
    match ReadHeader(s, p + 4)
    case None => Progress(v, Some(p), {})
    case Some(h) =>
      var e := h.entry;
      if !(0 <= e < |v.games|) then Progress(v, Some(p), {})
      else if h.op == "DEL" then
        Progress(v.(games := v.games[e := v.games[e].(valid := false)]), Some(p), {GamesModified})
      else if h.op == "NEW" then
        var nameLine := GetNextLine(s, Some(p));
        if nameLine.None? then Progress(v, None, {})
        else NewGameStep(v, s, e, h.id, nameLine.value, cap, checkAvail)
      else Progress(v, Some(p), {})
  }

  /** CHAT: the next line is added to the chat buffer. */
  function StepChat(v: RoomView, s: string, p: nat): (r: Progress)
    requires p <= |s|
    ensures ValidPtr(s, r.ptr) && (r.ptr.Some? ==> p <= r.ptr.value)
    ensures r.view == v.(chat := r.view.chat) && r.changes <= {ChatModified}
    ensures r.ptr.None? ==> r.view == v && r.changes == {}
  {
    var textLine := GetNextLine(s, Some(p));
    if textLine.None? then Progress(v, None, {})
    else Progress(v.(chat := Trim(ChatAppend(v.chat, GetLine(s, textLine)))), textLine, {ChatModified})
  }

  /** One record, chosen by the word its line starts with; a line with none
      of the four words is skipped. */
  function Step(v: RoomView, s: string, p: nat, cap: nat, checkAvail: string -> int): (r: Progress)
    requires p <= |s| && Wf(v, cap)
    ensures ValidPtr(s, r.ptr) && (r.ptr.Some? ==> p <= r.ptr.value)
  {
    if StartsAt(s, p, "TIME_STAMP") then StepTime(v, s, p)
    else if StartsAt(s, p, "USER") then StepUser(v, s, p)
    else if StartsAt(s, p, "GAME") then StepGame(v, s, p, cap, checkAvail)
    else if StartsAt(s, p, "CHAT") then StepChat(v, s, p)
    else Progress(v, Some(p), {})
  }

  /** The records from the line at ptr to the end of the reply, with the
      changes acc already found. */
  function ParseFrom(v: RoomView, s: string, ptr: Ptr, acc: set<Change>, cap: nat, checkAvail: string -> int): (r: Parsed)
    requires ValidPtr(s, ptr) && Wf(v, cap)
    ensures acc <= r.changes
    decreases if ptr.None? then 0 else |s| + 1 - ptr.value
  {
    match ptr
    case None => Parsed(v, acc)
    case Some(p) =>
      var st := Step(v, s, p, cap, checkAvail);
      StepKeepsWf(v, s, p, cap, checkAvail);
      ParseFrom(st.view, s, GetNextLine(s, st.ptr), acc + st.changes, cap, checkAvail)
  }

  /** The client-list loop keeps the game within its array and lists only
      user entries. */
  lemma {:induction false} EnlistBounds(r: Roster, e: int, t: seq<int>)
    requires HasRoom(r, |t|)
    ensures var r' := Enlist(r, e, t);
      && |r'.clients| == |r.clients|
      && |r'.game.clients| == |r.game.clients|
      && r.game.nbClient <= r'.game.nbClient <= r.game.nbClient + |t|
      && ((forall j :: 0 <= j < r.game.nbClient ==> 0 <= r.game.clients[j] < |r.clients|) ==>
            forall j :: 0 <= j < r'.game.nbClient ==> 0 <= r'.game.clients[j] < |r.clients|)
    decreases |t|
  {
    if t != [] {
      EnlistBounds(Admit(r, e, t[0]), e, t[1..]);
    }
  }

  /** The options part of GAME NEW keeps the tables well formed. */
  lemma GameOptionsWf(v: RoomView, g: Game, e: nat, s: string, optLine: Ptr, ints: seq<int>, cap: nat)
    requires ValidPtr(s, optLine) && e < |v.games| && Wf(v, cap)
    requires |g.clients| == cap && g.nbClient == 0
    ensures var r := GameOptions(v, g, e, s, optLine, ints, cap).view;
      |r.clients| == |v.clients| && |r.games| == |v.games| && Wf(r, cap)
  {
    if |ints| == 11 {
      var nb := CappedCount(ints[3], cap);
      var listLine := GetNextLine(s, optLine);
      if nb != 0 && listLine.Some? {
        var r := Roster(v.clients, g.(allowWeapons := ints[2]));
        WalkIsEnlist(r, e, s, listLine, nb);
        EnlistBounds(r, e, Tokens(s, listLine, nb));
      }
    }
  }

  /** A game entry that GAME NEW wrote is well formed. */
  lemma NewGameWf(v: RoomView, s: string, e: nat, id: int, nameLine: nat, cap: nat, checkAvail: string -> int)
    requires nameLine <= |s| && e < |v.games| && Wf(v, cap)
    ensures var r := NewGameStep(v, s, e, id, nameLine, cap, checkAvail).view;
      |r.clients| == |v.clients| && |r.games| == |v.games| && Wf(r, cap)
  {
    var trackLine := GetNextLine(s, Some(nameLine));
    var addrLine := GetNextLine(s, trackLine);
    var optLine := GetNextLine(s, addrLine);
    var ints := ReadInts(s, optLine, 12);
    var track := GetLine(s, trackLine);
    var g := FreshGame(v.games[e], id, GetLine(s, Some(nameLine)), track, GetLine(s, addrLine), checkAvail(track), ints);
    var v' := v.(games := v.games[e := g]);
    assert GameWf(g, cap, |v.clients|);
    GameOptionsWf(v', g, e, s, optLine, ints, cap);
  }

  /** A USER record leaves the game table alone and the user table's size. */
  lemma StepUserWf(v: RoomView, s: string, p: nat, cap: nat)
    requires p + 4 <= |s| && Wf(v, cap)
    ensures var r := StepUser(v, s, p).view;
      |r.clients| == |v.clients| && r.games == v.games && Wf(r, cap)
  {
  }

  /** A GAME record keeps the tables' sizes and their invariant. */
  lemma StepGameWf(v: RoomView, s: string, p: nat, cap: nat, checkAvail: string -> int)
    requires p + 4 <= |s| && Wf(v, cap)
    ensures var r := StepGame(v, s, p, cap, checkAvail).view;
      |r.clients| == |v.clients| && |r.games| == |v.games| && Wf(r, cap)
  {
    var h := ReadHeader(s, p + 4);
    if h.Some? && 0 <= h.value.entry < |v.games| {
      var e := h.value.entry;
      if h.value.op == "DEL" {
        DelGameWf(v, e, cap);
      } else if h.value.op == "NEW" {
        var nameLine := GetNextLine(s, Some(p));
        if nameLine.Some? {
          NewGameWf(v, s, e, h.value.id, nameLine.value, cap, checkAvail);
          assert StepGame(v, s, p, cap, checkAvail) == NewGameStep(v, s, e, h.value.id, nameLine.value, cap, checkAvail);
        }
      }
    }
  }

  /** Clearing a game's valid flag keeps the invariant. */
  lemma DelGameWf(v: RoomView, e: nat, cap: nat)
    requires e < |v.games| && Wf(v, cap)
    ensures Wf(v.(games := v.games[e := v.games[e].(valid := false)]), cap)
  {
    assert GameWf(v.games[e], cap, |v.clients|);
  }

  /** Every record keeps the tables' sizes and their invariant. */
  lemma StepKeepsWf(v: RoomView, s: string, p: nat, cap: nat, checkAvail: string -> int)
    requires p <= |s| && Wf(v, cap)
    ensures var r := Step(v, s, p, cap, checkAvail).view;
      |r.clients| == |v.clients| && |r.games| == |v.games| && Wf(r, cap)
  {
    if StartsAt(s, p, "TIME_STAMP") {
    } else if StartsAt(s, p, "USER") {
      StepUserWf(v, s, p, cap);
    } else if StartsAt(s, p, "GAME") {
      StepGameWf(v, s, p, cap, checkAvail);
    }
  }

  /** A whole reply keeps the tables' sizes and their invariant. */
  lemma {:induction false} ParseKeepsWf(v: RoomView, s: string, ptr: Ptr, acc: set<Change>, cap: nat, checkAvail: string -> int)
    requires ValidPtr(s, ptr) && Wf(v, cap)
    ensures var r := ParseFrom(v, s, ptr, acc, cap, checkAvail).view;
      |r.clients| == |v.clients| && |r.games| == |v.games| && Wf(r, cap)
    decreases if ptr.None? then 0 else |s| + 1 - ptr.value
  {
    if ptr.Some? {
      var st := Step(v, s, ptr.value, cap, checkAvail);
      StepKeepsWf(v, s, ptr.value, cap, checkAvail);
      ParseKeepsWf(st.view, s, GetNextLine(s, st.ptr), acc + st.changes, cap, checkAvail);
    }
  }

  /** The indices of t that are entries of a table of n users, in order. */
  function Accepted(t: seq<int>, n: nat): (a: seq<int>)
    ensures |a| <= |t|
  {
    if t == [] then []
    else if 0 <= t[0] < n then [t[0]] + Accepted(t[1..], n)
    else Accepted(t[1..], n)
  }

  /** Accepted keeps exactly the indices of t below n. */
  lemma {:induction false} AcceptedSpec(t: seq<int>, n: nat)
    ensures forall x :: x in Accepted(t, n) <==> x in t && 0 <= x < n
    decreases |t|
  {
    if t != [] {
      AcceptedSpec(t[1..], n);
      assert t == [t[0]] + t[1..];
    }
  }

  /** The client-list loop lists in the game exactly the indices it reads
      that are user entries, in order, after the users already listed, and
      changes nothing else in the game. */
  lemma {:induction false} EnlistListsAccepted(r: Roster, e: int, t: seq<int>)
    requires HasRoom(r, |t|)
    ensures var g := Enlist(r, e, t).game;
            var a := Accepted(t, |r.clients|);
      && g.nbClient == r.game.nbClient + |a|
      && |g.clients| == |r.game.clients|
      && g.clients[..g.nbClient] == r.game.clients[..r.game.nbClient] + a
      && g.clients[g.nbClient..] == r.game.clients[g.nbClient..]
      && g == r.game.(clients := g.clients, nbClient := g.nbClient)
    decreases |t|
  {
    if t != [] {
      var r' := Admit(r, e, t[0]);
      EnlistListsAccepted(r', e, t[1..]);
      if 0 <= t[0] < |r.clients| {
        var n := r.game.nbClient;
        assert r'.game.clients[..n + 1] == r.game.clients[..n] + [t[0]];
      }
    }
  }

  /** The client-list loop sets the game of exactly the listed users to e
      and changes nothing else in the user table. */
  lemma {:induction false} EnlistSetsUserGames(r: Roster, e: int, t: seq<int>)
    requires HasRoom(r, |t|)
    ensures var c := Enlist(r, e, t).clients;
            var a := Accepted(t, |r.clients|);
      && |c| == |r.clients|
      && forall i :: 0 <= i < |r.clients| ==> c[i] == (if i in a then r.clients[i].(game := e) else r.clients[i])
    decreases |t|
  {
    if t != [] {
      EnlistSetsUserGames(Admit(r, e, t[0]), e, t[1..]);
    }
  }

  /** The four record words start with different letters, so a record line
      is handled by the step its word names. */
  lemma UserDispatch(v: RoomView, s: string, p: nat, cap: nat, checkAvail: string -> int)
    requires Wf(v, cap) && StartsAt(s, p, "USER")
    ensures Step(v, s, p, cap, checkAvail) == StepUser(v, s, p)
  {
    assert s[p] == s[p..p + 4][0] == 'U';
    assert !StartsAt(s, p, "TIME_STAMP") by {
      if p + 10 <= |s| {
        assert s[p..p + 10][0] == s[p];
      }
    }
  }

  lemma GameDispatch(v: RoomView, s: string, p: nat, cap: nat, checkAvail: string -> int)
    requires Wf(v, cap) && StartsAt(s, p, "GAME")
    ensures Step(v, s, p, cap, checkAvail) == StepGame(v, s, p, cap, checkAvail)
  {
    assert s[p] == s[p..p + 4][0] == 'G';
    assert !StartsAt(s, p, "TIME_STAMP") by {
      if p + 10 <= |s| {
        assert s[p..p + 10][0] == s[p];
      }
    }
    assert !StartsAt(s, p, "USER") by {
      if p + 4 <= |s| {
        assert s[p..p + 4][0] == s[p];
      }
    }
  }

  lemma ChatDispatch(v: RoomView, s: string, p: nat, cap: nat, checkAvail: string -> int)
    requires Wf(v, cap) && StartsAt(s, p, "CHAT")
    ensures Step(v, s, p, cap, checkAvail) == StepChat(v, s, p)
  {
    assert s[p] == s[p..p + 4][0] == 'C';
    assert !StartsAt(s, p, "TIME_STAMP") by {
      if p + 10 <= |s| {
        assert s[p..p + 10][0] == s[p];
      }
    }
    assert !StartsAt(s, p, "USER") by {
      if p + 4 <= |s| {
        assert s[p..p + 4][0] == s[p];
      }
    }
    assert !StartsAt(s, p, "GAME") by {
      if p + 4 <= |s| {
        assert s[p..p + 4][0] == s[p];
      }
    }
  }

  /** A USER record whose entry is not in the user table changes nothing. */
  lemma UserOutOfRangeIgnored(v: RoomView, s: string, p: nat)
    requires p + 4 <= |s|
    requires ReadHeader(s, p + 4).Some? && !(0 <= ReadHeader(s, p + 4).value.entry < |v.clients|)
    ensures StepUser(v, s, p) == Progress(v, Some(p), {})
  {
  }

  /** A GAME record whose entry is not in the game table changes nothing. */
  lemma GameOutOfRangeIgnored(v: RoomView, s: string, p: nat, cap: nat, checkAvail: string -> int)
    requires p + 4 <= |s| && Wf(v, cap)
    requires ReadHeader(s, p + 4).Some? && !(0 <= ReadHeader(s, p + 4).value.entry < |v.games|)
    ensures StepGame(v, s, p, cap, checkAvail) == Progress(v, Some(p), {})
  {
  }

  /** USER <e> DEL clears the valid flag of user e, and nothing else. */
  lemma UserDelClearsValid(v: RoomView, s: string, p: nat)
    requires p + 4 <= |s|
    requires ReadHeader(s, p + 4).Some? && ReadHeader(s, p + 4).value.op == "DEL"
    requires 0 <= ReadHeader(s, p + 4).value.entry < |v.clients|
    ensures var r := StepUser(v, s, p); var e := ReadHeader(s, p + 4).value.entry;
      && r.changes == {UsersModified} && r.ptr == Some(p)
      && r.view.games == v.games && r.view.timeStamp == v.timeStamp && r.view.chat == v.chat
      && |r.view.clients| == |v.clients|
      && r.view.clients[e] == v.clients[e].(valid := false)
      && forall i :: 0 <= i < |v.clients| && i != e ==> r.view.clients[i] == v.clients[i]
  {
  }

  /** GAME <e> DEL clears the valid flag of game e, and nothing else. */
  lemma GameDelClearsValid(v: RoomView, s: string, p: nat, cap: nat, checkAvail: string -> int)
    requires p + 4 <= |s| && Wf(v, cap)
    requires ReadHeader(s, p + 4).Some? && ReadHeader(s, p + 4).value.op == "DEL"
    requires 0 <= ReadHeader(s, p + 4).value.entry < |v.games|
    ensures var r := StepGame(v, s, p, cap, checkAvail); var e := ReadHeader(s, p + 4).value.entry;
      && r.changes == {GamesModified} && r.ptr == Some(p)
      && r.view.clients == v.clients && r.view.timeStamp == v.timeStamp && r.view.chat == v.chat
      && |r.view.games| == |v.games|
      && r.view.games[e] == v.games[e].(valid := false)
      && forall i :: 0 <= i < |v.games| && i != e ==> r.view.games[i] == v.games[i]
  {
  }

  /** USER <e> NEW with a following line makes user e valid, in no game,
      named by the second line, with ids -1 when the first line holds no
      number; no other entry changes. Without a following line nothing
      changes and the reply ends. */
  lemma UserNewEntry(v: RoomView, s: string, p: nat)
    requires p + 4 <= |s|
    requires ReadHeader(s, p + 4).Some? && ReadHeader(s, p + 4).value.op == "NEW"
    requires 0 <= ReadHeader(s, p + 4).value.entry < |v.clients|
    ensures var r := StepUser(v, s, p); var idLine := GetNextLine(s, Some(p));
      idLine.None? ==> r == Progress(v, None, {})
    ensures var r := StepUser(v, s, p); var idLine := GetNextLine(s, Some(p));
            var e := ReadHeader(s, p + 4).value.entry;
      idLine.Some? ==>
        && r.changes == {UsersModified}
        && r.view.games == v.games && |r.view.clients| == |v.clients|
        && r.view.clients[e].valid && r.view.clients[e].game == -1
        && r.view.clients[e].name == GetLine(s, GetNextLine(s, idLine))
        && (ScanInt(GetLine(s, idLine), 0).None? ==> r.view.clients[e].majorId == -1 && r.view.clients[e].minorId == -1)
        && forall i :: 0 <= i < |v.clients| && i != e ==> r.view.clients[i] == v.clients[i]
  {
    assert "NEW" != "DEL";
  }

  /** The "major-minor" version line a client sends reads back as its two
      numbers. */
  lemma ReadIdsDec(major: int, minor: int, rest: string)
    requires rest == [] || !IsDigit(rest[0])
    ensures ReadIds(IntToDec(major) + "-" + IntToDec(minor) + rest) == (major, minor)
  {
    var line := IntToDec(major) + "-" + IntToDec(minor) + rest;
    var m := |IntToDec(major)|;
    IdsLineShape(IntToDec(major), IntToDec(minor), rest);
    ReadIdsParts(line, m, major, minor);
  }

  /** A line holding the digits of major, a '-', and the digits of minor
      not followed by another digit reads as the two. */
  lemma ReadIdsParts(line: string, m: nat, major: int, minor: int)
    requires m == |IntToDec(major)| && StartsAt(line, 0, IntToDec(major)) && m < |line| && line[m] == '-'
    requires StartsAt(line, m + 1, IntToDec(minor))
    requires m + 1 + |IntToDec(minor)| == |line| || !IsDigit(line[m + 1 + |IntToDec(minor)|])
    ensures ReadIds(line) == (major, minor)
  {
    ScanIntDec(line, 0, major);
    ScanIntDec(line, m + 1, minor);
    ReadIdsOf(line, m, major, minor);
  }

  /** A line whose first number ends at a '-' that is followed by a second
      number reads as the two. */
  lemma ReadIdsOf(line: string, m: nat, major: int, minor: int)
    requires m < |line| && line[m] == '-'
    requires ScanInt(line, 0) == Some(Scanned(major, m))
    requires ScanInt(line, m + 1).Some? && ScanInt(line, m + 1).value.number == minor
    ensures ReadIds(line) == (major, minor)
  {
    assert At(line, m) == '-';
  }

  /** Where the two numbers of a version line sit. */
  lemma IdsLineShape(a: string, b: string, rest: string)
    requires rest == [] || !IsDigit(rest[0])
    ensures var line := a + "-" + b + rest;
      && StartsAt(line, 0, a) && |a| < |line| && line[|a|] == '-'
      && StartsAt(line, |a| + 1, b)
      && (|a| + 1 + |b| == |line| || !IsDigit(line[|a| + 1 + |b|]))
  {
    var line := a + "-" + b + rest;
    assert line[..|a|] == a;
    assert line[|a| + 1..|a| + 1 + |b|] == b;
  }

  /** A header line as the server prints it, " <entry> <op>" with d the
      entry in decimal and op a word of 1 to 9 characters without blanks,
      reads back as that entry and word when "%9s" stops right after the
      word; the id is what "%u" then reads after the word (IdScan), or -1. */
  lemma ReadHeaderDec(s: string, i: nat, e: int, d: string, op: string)
    requires d == IntToDec(e)
    requires i + 1 + |d| < |s| && s[i] == ' ' && StartsAt(s, i + 1, d)
    requires s[i + 1 + |d|] == ' ' && StartsAt(s, i + 1 + |d| + 1, op)
    requires 0 < |op| <= 9 && forall k :: 0 <= k < |op| ==> !IsSpace(op[k]) && op[k] != '\0'
    requires |op| == 9 || At(s, i + 1 + |d| + 1 + |op|) == '\0' || IsSpace(At(s, i + 1 + |d| + 1 + |op|))
    ensures ReadHeader(s, i) == Some(Header(e, op,
      if ScanInt(s, i + 1 + |d| + 1 + |op|).Some?
      then ScanInt(s, i + 1 + |d| + 1 + |op|).value.number else -1))
  {
    EntryAfterBlank(s, i, e, d);
    HeaderWord(s, i, e, i + 1 + |d|, op, i + 1 + |d| + 1 + |op|);
  }

  /** " <number> " reads as the number, up to the second blank. */
  lemma EntryAfterBlank(s: string, i: nat, e: int, d: string)
    requires d == IntToDec(e)
    requires i + 1 + |d| < |s| && s[i] == ' ' && StartsAt(s, i + 1, d) && s[i + 1 + |d|] == ' '
    ensures ScanInt(s, i) == Some(Scanned(e, i + 1 + |d|))
  {
    ScanIntSkipsSpace(s, i);
    ScanIntDec(s, i + 1, e);
  }

  /** After the entry, "%9s" reads the word printed after a blank, up to
      q. */
  lemma HeaderWord(s: string, i: nat, e: int, j: nat, op: string, q: nat)
    requires i <= |s| && ScanInt(s, i) == Some(Scanned(e, j))
    requires j < |s| && s[j] == ' ' && StartsAt(s, j + 1, op) && q == j + 1 + |op|
    requires 0 < |op| <= 9 && forall k :: 0 <= k < |op| ==> !IsSpace(op[k]) && op[k] != '\0'
    requires |op| == 9 || At(s, q) == '\0' || IsSpace(At(s, q))
    ensures ReadHeader(s, i) == Some(Header(e, op, if ScanInt(s, q).Some? then ScanInt(s, q).value.number else -1))
  {
    ScanWordAfterBlank(s, j, op, 9);
    ReadHeaderOf(s, i, e, j, op, q);
  }

  /** The header is the entry and the word that convert, and the id after
      them. */
  lemma ReadHeaderOf(s: string, i: nat, e: int, j: nat, op: string, q: nat)
    requires i <= |s| && ScanInt(s, i) == Some(Scanned(e, j)) && ScanWord(s, j, 9) == Some((op, q))
    ensures ReadHeader(s, i) == Some(Header(e, op, if ScanInt(s, q).Some? then ScanInt(s, q).value.number else -1))
  {
  }

  /** The "%u" after the word of a header reads the id the server printed
      after a blank, and fails when the first character after the blanks
      starts no number. */
  lemma IdScan(s: string, q: nat, id: int)
    requires q <= |s|
    ensures At(s, q) == ' ' && StartsAt(s, q + 1, IntToDec(id)) && !IsDigit(At(s, q + 1 + |IntToDec(id)|)) ==>
      ScanInt(s, q) == Some(Scanned(id, q + 1 + |IntToDec(id)|))
    ensures !IsDigit(At(s, SkipSpace(s, q))) && At(s, SkipSpace(s, q)) != '-' && At(s, SkipSpace(s, q)) != '+' ==>
      ScanInt(s, q).None?
  {
    if At(s, q) == ' ' && StartsAt(s, q + 1, IntToDec(id)) && !IsDigit(At(s, q + 1 + |IntToDec(id)|)) {
      IdAfterBlank(s, q, id);
    }
    ScanIntSpec(s, q);
  }

  /** The id printed after a blank converts to itself. */
  lemma IdAfterBlank(s: string, q: nat, id: int)
    requires q <= |s| && At(s, q) == ' ' && StartsAt(s, q + 1, IntToDec(id)) && !IsDigit(At(s, q + 1 + |IntToDec(id)|))
    ensures ScanInt(s, q) == Some(Scanned(id, q + 1 + |IntToDec(id)|))
  {
    ScanIntSkipsSpace(s, q);
    ScanIntDec(s, q + 1, id);
  }

  /** Successive "%d" conversions from p yield ns, each one starting where
      the one before stopped. */
  predicate ScansAs(s: string, p: nat, ns: seq<int>)
    decreases |ns|
  {
    && p <= |s|
    && (ns != [] ==>
      && ScanInt(s, p).Some? && ScanInt(s, p).value.number == ns[0]
      && ScansAs(s, ScanInt(s, p).value.next, ns[1..]))
  }

  /** Where the conversions of ScansAs stop. */
  function ScansEnd(s: string, p: nat, ns: seq<int>): (q: nat)
    requires ScansAs(s, p, ns)
    ensures p <= q <= |s|
    decreases |ns|
  {
    if ns == [] then p else ScansEnd(s, ScanInt(s, p).value.next, ns[1..])
  }

  /** sscanf reads ns when the conversions yield ns and, if it asks for
      more, the next one fails. */
  lemma {:induction false} ReadIntsScans(s: string, p: nat, ns: seq<int>, max: nat)
    requires ScansAs(s, p, ns) && |ns| <= max
    requires |ns| < max ==> ScanInt(s, ScansEnd(s, p, ns)).None?
    ensures ReadInts(s, Some(p), max) == ns
    decreases |ns|
  {
    if ns == [] {
      ReadIntsNone(s, p, max);
    } else {
      var q := ScansUncons(s, p, ns);
      ReadIntsScans(s, q, ns[1..], max - 1);
      ReadIntsCons(s, p, max, ns[0], q);
      assert ns == [ns[0]] + ns[1..];
    }
  }

  /** The first of the conversions, and those after it. */
  lemma ScansUncons(s: string, p: nat, ns: seq<int>) returns (q: nat)
    requires ScansAs(s, p, ns) && ns != []
    ensures ScanInt(s, p) == Some(Scanned(ns[0], q)) && ScansAs(s, q, ns[1..])
    ensures ScansEnd(s, p, ns) == ScansEnd(s, q, ns[1..])
  {
    q := ScanInt(s, p).value.next;
  }

  /** No number is read where the first conversion fails. */
  lemma ReadIntsNone(s: string, p: nat, max: nat)
    requires p <= |s| && (max > 0 ==> ScanInt(s, p).None?)
    ensures ReadInts(s, Some(p), max) == []
  {
  }

  /** A number that converts is the first of those read, and reading goes
      on where it stops. */
  lemma ReadIntsCons(s: string, p: nat, max: nat, n: int, q: nat)
    requires p <= |s| && max > 0 && ScanInt(s, p) == Some(Scanned(n, q))
    ensures ReadInts(s, Some(p), max) == [n] + ReadInts(s, Some(q), max - 1)
  {
  }

  /** A blank before a conversion changes nothing. */
  lemma ScansSkip(s: string, q: nat, ns: seq<int>)
    requires q < |s| && IsSpace(s[q]) && ns != [] && ScansAs(s, q + 1, ns)
    ensures ScansAs(s, q, ns) && ScansEnd(s, q, ns) == ScansEnd(s, q + 1, ns)
  {
    ScanIntSkipsSpace(s, q);
  }

  /** The numbers whose printf("%d") texts are the words at p convert one
      by one, when the last is not followed by a digit. */
  lemma WordsScans(s: string, p: nat, ns: seq<int>, ws: seq<string>)
    requires |ws| == |ns| && forall j {:trigger IntToDec(ns[j])} :: 0 <= j < |ns| ==> ws[j] == IntToDec(ns[j])
    requires WordsAt(s, p, ws)
    requires ws != [] ==> !IsDigit(At(s, WordsEnd(s, p, ws)))
    ensures ScansAs(s, p, ns) && ScansEnd(s, p, ns) == WordsEnd(s, p, ws)
  {
    if ns != [] {
      var ps := WordsChain(s, p, ns, ws);
      ScansFrom(s, ns, ps, ws, 0);
      assert ns[0..] == ns;
    }
  }

  /** The start of each printed number, where its conversion begins. */
  lemma WordsChain(s: string, p: nat, ns: seq<int>, ws: seq<string>) returns (ps: seq<nat>)
    requires |ws| == |ns| && forall j {:trigger IntToDec(ns[j])} :: 0 <= j < |ns| ==> ws[j] == IntToDec(ns[j])
    requires WordsAt(s, p, ws) && ws != [] && !IsDigit(At(s, WordsEnd(s, p, ws)))
    ensures ScanChain(s, ns, ps, ws, 0) && ps[0] == p
    ensures WordsEnd(s, p, ws) == ps[|ws| - 1] + |ws[|ws| - 1]|
  {
    ps := WordsStarts(s, p, ws);
    WordsConvert(s, ns, ws, ps);
    ChainFrom(s, ns, ps, ws, 0);
  }

  /** Each printed number converts to itself and stops at the end of its
      text, when no digit follows the last one. */
  lemma WordsConvert(s: string, ns: seq<int>, ws: seq<string>, ps: seq<nat>)
    requires |ps| == |ns| == |ws| > 0 && forall j {:trigger IntToDec(ns[j])} :: 0 <= j < |ns| ==> ws[j] == IntToDec(ns[j])
    requires forall j {:trigger StartsAt(s, ps[j], ws[j])} :: 0 <= j < |ws| ==> StartsAt(s, ps[j], ws[j])
    requires forall j {:trigger ws[j]} :: 0 <= j < |ws| - 1 ==>
      ps[j] + |ws[j]| < |s| && s[ps[j] + |ws[j]|] == ' ' && ps[j + 1] == ps[j] + |ws[j]| + 1
    requires !IsDigit(At(s, ps[|ws| - 1] + |ws[|ws| - 1]|))
    ensures forall j :: 0 <= j < |ns| ==>
      ps[j] <= |s| && ScanInt(s, ps[j]) == Some(Scanned(ns[j], ps[j] + |ws[j]|))
  {
    forall j | 0 <= j < |ns|
      ensures ps[j] <= |s| && ScanInt(s, ps[j]) == Some(Scanned(ns[j], ps[j] + |ws[j]|))
    {
      assert StartsAt(s, ps[j], ws[j]);
      ScanIntDigits(s, ps[j], ns[j], ws[j]);
    }
  }

  /** From the j-th on, each conversion at ps[k] yields ns[k] and stops
      after |ws[k]| characters, on a blank just before ps[k + 1]. */
  predicate ScanChain(s: string, ns: seq<int>, ps: seq<nat>, ws: seq<string>, j: nat)
    decreases |ns| - j
  {
    && |ps| == |ns| == |ws| && j < |ns| && ps[j] <= |s|
    && ScanInt(s, ps[j]) == Some(Scanned(ns[j], ps[j] + |ws[j]|))
    && (j < |ns| - 1 ==>
      && ps[j] + |ws[j]| < |s| && s[ps[j] + |ws[j]|] == ' ' && ps[j + 1] == ps[j] + |ws[j]| + 1
      && ScanChain(s, ns, ps, ws, j + 1))
  }

  /** Conversion facts about every word chain from the j-th on. */
  lemma {:induction false} ChainFrom(s: string, ns: seq<int>, ps: seq<nat>, ws: seq<string>, j: nat)
    requires |ps| == |ns| == |ws| && j < |ns|
    requires forall k :: 0 <= k < |ns| ==>
      ps[k] <= |s| && ScanInt(s, ps[k]) == Some(Scanned(ns[k], ps[k] + |ws[k]|))
    requires forall k {:trigger ws[k]} :: 0 <= k < |ws| - 1 ==>
      ps[k] + |ws[k]| < |s| && s[ps[k] + |ws[k]|] == ' ' && ps[k + 1] == ps[k] + |ws[k]| + 1
    ensures ScanChain(s, ns, ps, ws, j)
    decreases |ns| - j
  {
    if j < |ns| - 1 {
      ChainFrom(s, ns, ps, ws, j + 1);
    }
  }

  /** A chain of conversions from the j-th on yields the numbers from the
      j-th on, and stops where the last one does. */
  lemma {:induction false} ScansFrom(s: string, ns: seq<int>, ps: seq<nat>, ws: seq<string>, j: nat)
    requires ScanChain(s, ns, ps, ws, j)
    ensures ScansAs(s, ps[j], ns[j..]) && ScansEnd(s, ps[j], ns[j..]) == ps[|ns| - 1] + |ws[|ns| - 1]|
    decreases |ns| - j
  {
    var q := ps[j] + |ws[j]|;
    if j < |ns| - 1 {
      ScansFrom(s, ns, ps, ws, j + 1);
      assert ns[j..] == [ns[j]] + ns[j + 1..];
      ScansStep(s, ps[j], ns[j], q, ns[j..], ns[j + 1..], ps[|ns| - 1] + |ws[|ns| - 1]|);
    } else {
      assert ns[j..] == [ns[j]];
      ScansOne(s, ps[j], ns[j], q, ns[j..]);
    }
  }

  /** A conversion that stops on a blank, followed by conversions that
      yield rest, yields its number and then rest. */
  lemma ScansStep(s: string, p: nat, n: int, q: nat, ns: seq<int>, rest: seq<int>, e: nat)
    requires p <= |s| && ScanInt(s, p) == Some(Scanned(n, q)) && q < |s| && IsSpace(s[q])
    requires rest != [] && ScansAs(s, q + 1, rest) && ScansEnd(s, q + 1, rest) == e
    requires ns == [n] + rest
    ensures ScansAs(s, p, ns) && ScansEnd(s, p, ns) == e
  {
    ScansSkip(s, q, rest);
    assert ns[1..] == rest;
  }

  /** A single conversion yields its number and stops where it stops. */
  lemma ScansOne(s: string, p: nat, n: int, q: nat, ns: seq<int>)
    requires p <= |s| && ScanInt(s, p) == Some(Scanned(n, q)) && ns == [n]
    ensures ScansAs(s, p, ns) && ScansEnd(s, p, ns) == q
  {
    assert ns[1..] == [];
  }

  /** Numbers printed by "%d" and separated by single blanks (ws[j] is the
      text of ns[j]) read back as exactly those numbers: no more than max
      are printed, the last is not followed by a digit and, when sscanf asks
      for more, no number follows them. */
  lemma ReadIntsDec(s: string, p: nat, ns: seq<int>, ws: seq<string>, max: nat)
    requires |ws| == |ns| && forall j {:trigger IntToDec(ns[j])} :: 0 <= j < |ns| ==> ws[j] == IntToDec(ns[j])
    requires WordsAt(s, p, ws) && |ns| <= max
    requires ws != [] ==> !IsDigit(At(s, WordsEnd(s, p, ws)))
    requires |ns| < max ==>
      var c := At(s, SkipSpace(s, WordsEnd(s, p, ws))); !IsDigit(c) && c != '-' && c != '+'
    ensures ReadInts(s, Some(p), max) == ns
  {
    WordsScans(s, p, ns, ws);
    ScanIntSpec(s, WordsEnd(s, p, ws));
    ReadIntsScans(s, p, ns, max);
  }

  /** The client-list loop from p reads ns: atoi gives each index, and
      every index but the last is followed by a space. */
  predicate WalksAs(s: string, p: nat, ns: seq<int>)
    decreases |ns|
  {
    && p <= |s|
    && (ns != [] ==>
      && Atoi(s, p) == ns[0]
      && (|ns| > 1 ==> AfterSpace(s, p).Some? && WalksAs(s, AfterSpace(s, p).value, ns[1..])))
  }

  /** The loop reads exactly the indices it walks over. */
  lemma {:induction false} TokensWalk(s: string, p: nat, ns: seq<int>)
    requires WalksAs(s, p, ns)
    ensures Tokens(s, Some(p), |ns|) == ns
    decreases |ns|
  {
    if |ns| == 1 {
      assert Tokens(s, AfterSpace(s, p), 0) == [];
    } else if |ns| > 1 {
      TokensWalk(s, AfterSpace(s, p).value, ns[1..]);
      assert ns == [ns[0]] + ns[1..];
    }
  }

  /** The indices whose printf("%d") texts are the words at p are walked
      over one by one, when the last is not followed by a digit. */
  lemma WordsWalk(s: string, p: nat, ns: seq<int>, ws: seq<string>)
    requires |ws| == |ns| && forall j {:trigger IntToDec(ns[j])} :: 0 <= j < |ns| ==> ws[j] == IntToDec(ns[j])
    requires WordsAt(s, p, ws)
    requires ws != [] ==> !IsDigit(At(s, WordsEnd(s, p, ws)))
    ensures WalksAs(s, p, ns)
  {
    if ns != [] {
      var ps := WordsStarts(s, p, ws);
      WordsConvert(s, ns, ws, ps);
      WalkBlanks(s, ns, ws, ps);
      WalkChainFrom(s, ns, ps, ws, 0);
      WalksFrom(s, ns, ps, ws, 0);
      assert ns[0..] == ns;
    }
  }

  /** After each printed number but the last, strchr finds the blank that
      ends it. */
  lemma WalkBlanks(s: string, ns: seq<int>, ws: seq<string>, ps: seq<nat>)
    requires |ps| == |ns| == |ws| > 0 && forall j {:trigger IntToDec(ns[j])} :: 0 <= j < |ns| ==> ws[j] == IntToDec(ns[j])
    requires forall j {:trigger StartsAt(s, ps[j], ws[j])} :: 0 <= j < |ws| ==> StartsAt(s, ps[j], ws[j])
    requires forall j {:trigger ws[j]} :: 0 <= j < |ws| - 1 ==>
      ps[j] + |ws[j]| < |s| && s[ps[j] + |ws[j]|] == ' ' && ps[j + 1] == ps[j] + |ws[j]| + 1
    ensures forall j :: 0 <= j < |ns| - 1 ==> ps[j] <= |s| && AfterSpace(s, ps[j]) == Some(ps[j + 1])
  {
    forall j | 0 <= j < |ns| - 1
      ensures ps[j] <= |s| && AfterSpace(s, ps[j]) == Some(ps[j + 1])
    {
      assert StartsAt(s, ps[j], ws[j]);
      DigitsBeforeSpace(s, ps[j], ns[j], ws[j]);
    }
  }

  /** From the j-th on, the conversion at ps[k] yields ns[k] and stops
      after |ws[k]| characters, and the walk then moves to ps[k + 1]. */
  predicate WalkChain(s: string, ns: seq<int>, ps: seq<nat>, ws: seq<string>, j: nat)
    decreases |ns| - j
  {
    && |ps| == |ns| == |ws| && j < |ns| && ps[j] <= |s|
    && ScanInt(s, ps[j]) == Some(Scanned(ns[j], ps[j] + |ws[j]|))
    && (j < |ns| - 1 ==> AfterSpace(s, ps[j]) == Some(ps[j + 1]) && WalkChain(s, ns, ps, ws, j + 1))
  }

  /** The conversion and walk facts about every number make a chain from
      the j-th on. */
  lemma {:induction false} WalkChainFrom(s: string, ns: seq<int>, ps: seq<nat>, ws: seq<string>, j: nat)
    requires |ps| == |ns| == |ws| && j < |ns|
    requires forall k :: 0 <= k < |ns| ==>
      ps[k] <= |s| && ScanInt(s, ps[k]) == Some(Scanned(ns[k], ps[k] + |ws[k]|))
    requires forall k :: 0 <= k < |ns| - 1 ==> ps[k] <= |s| && AfterSpace(s, ps[k]) == Some(ps[k + 1])
    ensures WalkChain(s, ns, ps, ws, j)
    decreases |ns| - j
  {
    if j < |ns| - 1 {
      WalkChainFrom(s, ns, ps, ws, j + 1);
    }
  }

  /** A chain from the j-th number on is a walk over the numbers from the
      j-th on. */
  lemma {:induction false} WalksFrom(s: string, ns: seq<int>, ps: seq<nat>, ws: seq<string>, j: nat)
    requires WalkChain(s, ns, ps, ws, j)
    ensures WalksAs(s, ps[j], ns[j..])
    decreases |ns| - j
  {
    if j < |ns| - 1 {
      WalksFrom(s, ns, ps, ws, j + 1);
      assert ns[j..][1..] == ns[j + 1..];
    }
  }

  /** The client list as the server prints it, user indices separated by
      single blanks (ws[j] is the text of ns[j]), is read back index by
      index when the count sent is the number of indices and the last is
      not followed by a digit. */
  lemma TokensDec(s: string, p: nat, ns: seq<int>, ws: seq<string>)
    requires |ws| == |ns| && forall j {:trigger IntToDec(ns[j])} :: 0 <= j < |ns| ==> ws[j] == IntToDec(ns[j])
    requires WordsAt(s, p, ws)
    requires ws != [] ==> !IsDigit(At(s, WordsEnd(s, p, ws)))
    ensures Tokens(s, Some(p), |ns|) == ns
  {
    WordsWalk(s, p, ns, ws);
    TokensWalk(s, p, ns);
  }

  /** After a printed number and a blank, the walk moves to the character
      after the blank. */
  lemma DigitsBeforeSpace(s: string, p: nat, n: int, d: string)
    requires d == IntToDec(n) && StartsAt(s, p, d) && p + |d| < |s| && s[p + |d|] == ' '
    ensures AfterSpace(s, p) == Some(p + |d| + 1)
  {
    IntToDecChars(n);
    forall k | p <= k < p + |d|
      ensures s[k] != ' ' && s[k] != '\0'
    {
      assert s[k] == d[k - p];
    }
    StrchrAt(s, p, ' ', p + |d|);
  }

  /** The entry GAME NEW writes: valid, with the header's id, the name,
      track and address lines, the availability of the track, the port and
      lap count from the numbers line (else (unsigned) -1 and one lap), and
      the weapons flag when exactly 11 numbers convert (else off). */
  lemma GameNewEntry(v: RoomView, s: string, e: nat, id: int, nameLine: nat, cap: nat, checkAvail: string -> int)
    requires nameLine <= |s| && e < |v.games| && |v.games[e].clients| == cap
    ensures var r := NewGameStep(v, s, e, id, nameLine, cap, checkAvail);
      var trackLine := GetNextLine(s, Some(nameLine));
      var addrLine := GetNextLine(s, trackLine);
      var ints := ReadInts(s, GetNextLine(s, addrLine), 12);
      var g := r.view.games[e];
      && r.changes == {GamesModified}
      && g.valid && g.id == id
      && g.name == GetLine(s, Some(nameLine)) && g.track == GetLine(s, trackLine)
      && g.ipAddr == GetLine(s, addrLine) && g.availCode == checkAvail(GetLine(s, trackLine))
      && g.port == Unsigned32(if |ints| >= 1 then ints[0] else -1)
      && g.nbLap == (if |ints| >= 2 then ints[1] else 1)
      && g.allowWeapons == (if |ints| == 11 then ints[2] else 0)
  {
    var trackLine := GetNextLine(s, Some(nameLine));
    var addrLine := GetNextLine(s, trackLine);
    var optLine := GetNextLine(s, addrLine);
    var ints := ReadInts(s, optLine, 12);
    var track := GetLine(s, trackLine);
    var g := FreshGame(v.games[e], id, GetLine(s, Some(nameLine)), track, GetLine(s, addrLine), checkAvail(track), ints);
    GameOptionsClientList(v.(games := v.games[e := g]), g, e, s, optLine, ints, cap);
  }

  /** The options part of GAME NEW: without exactly 11 numbers the entry is
      the one written so far and no user changes; with them, the weapons
      flag is the third number and the game lists exactly the user entries
      among the indices read for the capped count, each of which now plays
      in game e. */
  lemma GameOptionsClientList(v: RoomView, g: Game, e: nat, s: string, optLine: Ptr, ints: seq<int>, cap: nat)
    requires ValidPtr(s, optLine) && e < |v.games|
    requires |g.clients| == cap && g.nbClient == 0
    ensures var r := GameOptions(v, g, e, s, optLine, ints, cap).view;
      |ints| != 11 ==> r.games == v.games[e := g] && r.clients == v.clients
    ensures var r := GameOptions(v, g, e, s, optLine, ints, cap).view;
      |ints| == 11 ==>
        var listLine := GetNextLine(s, optLine);
        var tokens := if CappedCount(ints[3], cap) != 0 && listLine.Some? then Tokens(s, listLine, CappedCount(ints[3], cap)) else [];
        var a := Accepted(tokens, |v.clients|);
        && |r.games| == |v.games| && |r.clients| == |v.clients|
        && (forall i :: 0 <= i < |v.games| && i != e ==> r.games[i] == v.games[i])
        && r.games[e] == g.(allowWeapons := ints[2], clients := r.games[e].clients, nbClient := r.games[e].nbClient)
        && |r.games[e].clients| == cap
        && r.games[e].nbClient == |a| <= cap
        && r.games[e].clients[..r.games[e].nbClient] == a
        && forall i :: 0 <= i < |v.clients| ==> r.clients[i] == (if i in a then v.clients[i].(game := e) else v.clients[i])
  {
    if |ints| == 11 {
      var nb := CappedCount(ints[3], cap);
      var listLine := GetNextLine(s, optLine);
      var g1 := g.(allowWeapons := ints[2]);
      if nb != 0 && listLine.Some? {
        var tokens := Tokens(s, listLine, nb);
        WalkIsEnlist(Roster(v.clients, g1), e, s, listLine, nb);
        EnlistListsAccepted(Roster(v.clients, g1), e, tokens);
        EnlistSetsUserGames(Roster(v.clients, g1), e, tokens);
      }
    }
  }

  /** The meeting room's tables, chat buffer and refresh time stamp. The
      capacities eMaxClient and eMaxGame are the lengths of the arrays, and
      eMaxPlayerGame is maxPlayerGame. The track bundle's CheckAvail is the
      function checkAvail. */
  class InternetRoom {
    const clientList: array<Client>
    const gameList: array<Game>
    const maxPlayerGame: nat
    const checkAvail: string -> int
    var lastRefreshTimeStamp: int
    var chatBuffer: string

    function View(): RoomView
      reads this, clientList, gameList
    {
      RoomView(clientList[..], gameList[..], lastRefreshTimeStamp, chatBuffer)
    }

    predicate Valid()
      reads this, clientList, gameList
    {
      Wf(View(), maxPlayerGame)
    }

    /** Every user and game entry starts out invalid and the chat buffer
        empty. The other fields of the entries, left unset by the source,
        are zero here; the time stamp is left unset as in the source. */
    constructor (maxClient: nat, maxGame: nat, maxPlayerGame: nat, checkAvail: string -> int)
      ensures Valid()
      ensures clientList.Length == maxClient && gameList.Length == maxGame
      ensures this.maxPlayerGame == maxPlayerGame && this.checkAvail == checkAvail
      ensures forall i :: 0 <= i < maxClient ==> !clientList[i].valid
      ensures forall i :: 0 <= i < maxGame ==> !gameList[i].valid
      ensures chatBuffer == ""
      ensures fresh(clientList) && fresh(gameList)
    {
      this.maxPlayerGame := maxPlayerGame;
      this.checkAvail := checkAvail;
      clientList := new Client[maxClient](_ => Client(false, 0, 0, 0, ""));
      gameList := new Game[maxGame](_ => Game(false, 0, 0, 0, 0, 0, "", "", 0, "", seq(maxPlayerGame, _ => 0)));
      chatBuffer := "";
    }

    /** Appends a line to the chat buffer and trims whole leading lines while
        the buffer is over 40 * 40 characters. */
    method AddChatLine(text: string)
      modifies this`chatBuffer
      ensures chatBuffer == Trim(ChatAppend(old(chatBuffer), text))
    {
      chatBuffer := AppendChatLine(chatBuffer, text);
    }

    /** Reads every record of the reply s into the tables and returns what
        changed. */
    method ParseState(s: string) returns (changes: set<Change>)
      requires Valid()
      modifies this, clientList, gameList
      ensures Valid()
      ensures Parsed(View(), changes) == ParseFrom(old(View()), s, Some(0), {}, maxPlayerGame, checkAvail)
    {
      changes := {};
      var ptr: Ptr := Some(0);
      while ptr.Some?
        invariant ValidPtr(s, ptr) && Valid()
        invariant ParseFrom(View(), s, ptr, changes, maxPlayerGame, checkAvail)
               == ParseFrom(old(View()), s, Some(0), {}, maxPlayerGame, checkAvail)
        decreases if ptr.None? then 0 else |s| + 1 - ptr.value
      {
        var p := ptr.value;
        var added: set<Change>;
        ptr, added := ParseRecord(s, p);
        changes := changes + added;
        ptr := GetNextLine(s, ptr);
      }
    }

    /** The body of ParseState's loop for the line at p. */
    method ParseRecord(s: string, p: nat) returns (ptr: Ptr, added: set<Change>)
      requires p <= |s| && Valid()
      modifies this, clientList, gameList
      ensures Valid()
      ensures Progress(View(), ptr, added) == Step(old(View()), s, p, maxPlayerGame, checkAvail)
    {
      ghost var v := View();
      StepKeepsWf(v, s, p, maxPlayerGame, checkAvail);
      ptr, added := Some(p), {};
      if StartsAt(s, p, "TIME_STAMP") {
        var x := ScanInt(s, p + 10);
        if x.Some? {
          lastRefreshTimeStamp := x.value.number;
        }
      } else if StartsAt(s, p, "USER") {
        ptr, added := ParseUser(s, p);
      } else if StartsAt(s, p, "GAME") {
        ptr, added := ParseGame(s, p);
      } else if StartsAt(s, p, "CHAT") {
        ptr := GetNextLine(s, ptr);
        if ptr.Some? {
          added := {ChatModified};
          AddChatLine(GetLine(s, ptr));
        }
      }
    }

    method ParseUser(s: string, p: nat) returns (ptr: Ptr, added: set<Change>)
      requires p + 4 <= |s|
      modifies clientList
      ensures Progress(View(), ptr, added) == StepUser(old(View()), s, p)
    {
      ptr, added := Some(p), {};
      var header := ReadHeader(s, p + 4);
      if header.Some? && 0 <= header.value.entry < clientList.Length {
        var e := header.value.entry;
        if header.value.op == "DEL" {
          added := {UsersModified};
          clientList[e] := clientList[e].(valid := false);
        } else if header.value.op == "NEW" {
          ptr := GetNextLine(s, ptr);
          if ptr.Some? {
            added := {UsersModified};
            var ids := ReadIds(GetLine(s, ptr));
            ptr := GetNextLine(s, ptr);
            clientList[e] := Client(true, ids.0, ids.1, -1, GetLine(s, ptr));
          }
        }
      }
    }

    method ParseGame(s: string, p: nat) returns (ptr: Ptr, added: set<Change>)
      requires p + 4 <= |s| && Valid()
      modifies clientList, gameList
      ensures Progress(View(), ptr, added) == StepGame(old(View()), s, p, maxPlayerGame, checkAvail)
    {
      ptr, added := Some(p), {};
      var header := ReadHeader(s, p + 4);
      if header.Some? && 0 <= header.value.entry < gameList.Length {
        var e := header.value.entry;
        if header.value.op == "DEL" {
          added := {GamesModified};
          gameList[e] := gameList[e].(valid := false);
        } else if header.value.op == "NEW" {
          ptr := GetNextLine(s, ptr);
          if ptr.Some? {
            added := {GamesModified};
            ptr := NewGame(s, e, header.value.id, ptr.value);
          }
        }
      }
    }

    /** GAME NEW from the name line on: fills entry e and returns the line
        pointer after the lines it read. */
    method NewGame(s: string, e: nat, id: int, nameLine: nat) returns (ptr: Ptr)
      requires nameLine <= |s| && e < gameList.Length && |gameList[e].clients| == maxPlayerGame
      modifies clientList, gameList
      ensures Progress(View(), ptr, {GamesModified})
           == NewGameStep(old(View()), s, e, id, nameLine, maxPlayerGame, checkAvail)
    {
      ptr := Some(nameLine);
      var name := GetLine(s, ptr);
      ptr := GetNextLine(s, ptr);
      var track := GetLine(s, ptr);
      ptr := GetNextLine(s, ptr);
      var ipAddr := GetLine(s, ptr);
      ptr := GetNextLine(s, ptr);
      var ints := ReadInts(s, ptr, 12);
      ghost var v := View();
      gameList[e] := gameList[e].(
        valid := true, id := id, nbClient := 0,
        nbLap := if |ints| >= 2 then ints[1] else 1,
        allowWeapons := 0,
        port := Unsigned32(if |ints| >= 1 then ints[0] else -1),
        name := name, track := track, availCode := checkAvail(track), ipAddr := ipAddr);
      assert gameList[e] == FreshGame(v.games[e], id, name, track, ipAddr, checkAvail(track), ints);
      assert View() == v.(games := v.games[e := gameList[e]]);
      ptr := ReadOptions(s, e, ptr, ints);
    }

    /** The weapons flag and the client list of GAME NEW, from the numbers
        ints read on the line at optLine. */
    method ReadOptions(s: string, e: nat, optLine: Ptr, ints: seq<int>) returns (ptr: Ptr)
      requires ValidPtr(s, optLine) && e < gameList.Length
      requires |gameList[e].clients| == maxPlayerGame && gameList[e].nbClient == 0
      modifies clientList, gameList
      ensures Progress(View(), ptr, {GamesModified})
           == GameOptions(old(View()), old(gameList[e]), e, s, optLine, ints, maxPlayerGame)
    {
      ptr := optLine;
      ghost var v, g := View(), gameList[e];
      if |ints| == 11 {
        gameList[e] := gameList[e].(allowWeapons := ints[2]);
        ghost var g1 := gameList[e];
        assert gameList[..] == v.games[e := g1];
        var nb := ints[3];
        if nb > maxPlayerGame {
          nb := maxPlayerGame;
        }
        if nb != 0 {
          ptr := GetNextLine(s, ptr);
          if ptr.Some? {
            ListClients(s, e, ptr, nb);
            ghost var r := Walk(Roster(v.clients, g1), e, s, ptr, nb);
            assert gameList[..] == v.games[e := r.game];
            assert View() == v.(clients := r.clients, games := v.games[e := r.game]);
          }
        }
      } else {
        assert v.games[e := g] == v.games;
      }
    }

    /** The client-list loop of GAME NEW: nb iterations over the user indices
        on the line at listLine. */
    method ListClients(s: string, e: nat, listLine: Ptr, nb: int)
      requires ValidPtr(s, listLine) && e < gameList.Length
      requires nb <= |gameList[e].clients| && gameList[e].nbClient == 0
      modifies clientList, gameList
      ensures clientList[..] == Walk(Roster(old(clientList[..]), old(gameList[e])), e, s, listLine, nb).clients
      ensures gameList[..] == old(gameList[..])[e := Walk(Roster(old(clientList[..]), old(gameList[e])), e, s, listLine, nb).game]
    {
      var at := listLine;
      var counter := 0;
      ghost var goal := Walk(Roster(clientList[..], gameList[e]), e, s, listLine, nb);
      ghost var games0 := gameList[..];
      while counter < nb
        invariant ValidPtr(s, at)
        invariant 0 <= gameList[e].nbClient <= counter && nb <= |gameList[e].clients|
        invariant counter == 0 || counter <= nb
        invariant gameList[..] == games0[e := gameList[e]]
        invariant Walk(Roster(clientList[..], gameList[e]), e, s, at, nb - counter) == goal
        decreases nb - counter
      {
        ghost var r0 := Roster(clientList[..], gameList[e]);
        if at.Some? {
          var p := at.value;
          at := ListOne(s, e, p, nb - counter);
          WalkAdmits(r0, e, s, p, nb - counter, Roster(clientList[..], gameList[e]));
        } else {
          WalkSkips(r0, e, s, nb - counter);
        }
        counter := counter + 1;
      }
      assert Walk(Roster(clientList[..], gameList[e]), e, s, at, nb - counter) == Roster(clientList[..], gameList[e]);
    }

    /** One iteration of the client-list loop with a non-NULL pointer at p,
        k iterations before the end: the user index at p is listed in game e
        when it is a user entry; returns the pointer past the next space. */
    method ListOne(s: string, e: nat, p: nat, k: int) returns (next: Ptr)
      requires p <= |s| && e < gameList.Length && k > 0
      requires 0 <= gameList[e].nbClient && gameList[e].nbClient + k <= |gameList[e].clients|
      modifies clientList, gameList
      ensures ValidPtr(s, next)
      ensures |gameList[e].clients| == |old(gameList[e]).clients|
      ensures old(gameList[e]).nbClient <= gameList[e].nbClient <= old(gameList[e]).nbClient + 1
      ensures Roster(clientList[..], gameList[e]) == Admit(Roster(old(clientList[..]), old(gameList[e])), e, Atoi(s, p))
      ensures next == AfterSpace(s, p)
      ensures gameList[..] == old(gameList[..])[e := gameList[e]]
    {
      var idx := Atoi(s, p);
      if 0 <= idx < clientList.Length {
        var g := gameList[e];
        gameList[e] := g.(clients := g.clients[g.nbClient := idx], nbClient := g.nbClient + 1);
        clientList[idx] := clientList[idx].(game := e);
      }
      next := AfterSpace(s, p);
    }
  }
}
