# HoverRace meeting-room client and game-application helpers in Dafny

This project models the text-handling core of the HoverRace client's Internet
Meeting Room, plus a few helpers of the game application.

The meeting room talks to the room server over HTTP. Every server reply is a
NUL-terminated text that the client walks line by line.

- `GetLineLen`, `GetLine` and `GetNextLine` do the line walking.
- `MR_Pad` percent-encodes a string for a URL.
- `VerifyError` decides whether a reply reports success. When it does not, it
  picks the message to show.
- `ParseState` reads a refresh reply into the room's fixed-size tables of
  users and games and into its chat buffer. The reply is made of TIME_STAMP,
  USER, GAME and CHAT records.
- `AddChatLine` appends a line to the chat buffer. It then drops whole leading
  lines while the buffer is longer than 40 * 40 characters.
- `InternetRequest` keeps the state of one exchange with the server.

On the game-application side the project models these helpers:

- how the main window is clamped to the virtual screen;
- how `DrawBackground` paints the frame buffer row by row;
- how `MenuFmt` builds a menu label;
- how a hosted game's name is written by the host
  (`"%s %d %s; options %c%c%c, %c%c%c%c"`) and decoded by a joining client
  into a track name, a lap count and a set of options.

The modules are:

| module | file | what it holds |
|---|---|---|
| `CText` | ctext.dfy | C-string reading: `atoi`, `sscanf("%d")` and `"%s"` on a `string`, with `'\0'` past the end |
| `RoomLines` | room_lines.dfy | the line scanner; a `const char *` is an `Option<nat>` index, and `NULL` is `None` |
| `RoomPad` | room_pad.dfy | `MR_Pad` and its inverse |
| `RoomChat` | room_chat.dfy | the chat buffer's append and trim |
| `RoomVerify` | room_verify.dfy | `VerifyError` |
| `RoomState` | room_state.dfy | `ParseState`, as step functions over a value view of the room and as the class `InternetRoom` updating its arrays in place |
| `RoomRequest` | room_request.dfy | the class `InternetRequest` |
| `TrackName` | game_name.dfy | the game-name encoder and decoder |
| `GameApp` | game_app.dfy | the window clamp, `DrawBackground` and `MenuFmt` |

Stateful code is modelled as classes and methods with loops, and the pure
functions beside them specify it:

- `InternetRoom` holds `clientList` and `gameList` arrays, the time stamp and
  the chat buffer. Its `ParseState` method is proved to leave the view that
  `ParseFrom` computes, and to keep the invariant that every game lists only
  user entries, at most `eMaxPlayerGame` of them.
- The decoder loop, `GetLineLen`, `MR_Pad` and the two loops of `VerifyError`
  are methods, each proved equal to a function. Lemmas state the properties
  of those functions: round trips, first-match and minimality facts, and
  frame conditions.

## Model

| member | source | states |
|---|---|---|
| CText.ScanInt | client/Game2/InternetRoom.cpp:1046 | a `%d` conversion that succeeds consumes at least one character and stops within the string |
| CText.ScanIntSpec | client/Game2/InternetRoom.cpp:1046 | a `%d` conversion ends on a digit and takes the whole digit run; a digit as the first non-blank character converts to a non-negative number; a character that is neither a digit nor a sign fails the conversion |
| CText.Atoi | client/Game2/InternetRoom.cpp:459 | `atoi` gives 0 when the first non-blank character is neither a digit nor a sign, and a non-negative number when it is a digit |
| CText.ScanWord | client/Game2/InternetRoom.cpp:340 | `%9s` skips blanks and reads the text there: 1 to 9 characters, none of them white space or `'\0'`, stopping only at the ninth, at a blank, at `'\0'` or at the end; it fails exactly when the width is 0 or only blanks remain before the terminator |
| CText.ScanWordAfterBlank | client/Game2/InternetRoom.cpp:373 | a word printed after a blank and followed by a blank, `'\0'` or the end is read back whole by `%9s` |
| CText.Strchr | client/Game2/InternetRoom.cpp:466 | `strchr` finds the first occurrence of the character before the terminator, and gives NULL only when the character does not occur before the terminator |
| CText.AtoiDec | client/Game2/GameApp.cpp:1543 | `atoi` at a decimal numeral followed by a non-digit gives back that number |
| RoomLines.LineLen | client/Game2/InternetRoom.cpp:2319-2325 | a line's length counts exactly the characters before the first `'\0'`, CR or LF, and such a character follows |
| RoomLines.GetLineLen | client/Game2/InternetRoom.cpp:2314-2328 | the loop returns 0 for NULL, else the length of the line at the pointer; never negative |
| RoomLines.GetLine | client/Game2/InternetRoom.cpp:2304-2307 | the line copied out holds no line end, is what the reply holds at the pointer, and is followed there by a line end; NULL gives "" |
| RoomLines.GetNextLine | client/Game2/InternetRoom.cpp:2330-2345 | the result is NULL exactly when the pointer is NULL or the line ends at the terminator; otherwise it points just past the line's CR or LF |
| RoomLines.NextLineIsNextStart | client/Game2/InternetRoom.cpp:2330-2345 | from a line start, GetNextLine moves forward to the very next line start, and returns NULL only when no line start follows |
| RoomLines.CrLfYieldsEmptyLine | client/Game2/InternetRoom.cpp:2335-2341 | a `"\r\n"` line end is followed by an empty line between the CR and the LF |
| RoomPad.MR_Pad | client/Game2/InternetRoom.cpp:2244-2302 | every character up to the terminator becomes `%xx`; the result is the padding of that prefix and three times as long |
| RoomPad.Pad | client/Game2/InternetRoom.cpp:2249-2298 | the escaped string has three characters per input character (PadAt and UnpadPad state which) |
| RoomPad.PadByte | client/Game2/InternetRoom.cpp:2288-2289 | a character becomes `'%'` and two hex digits |
| RoomPad.PadAt | client/Game2/InternetRoom.cpp:2249-2298 | the i-th triple of the output is the padding of the i-th input character |
| RoomPad.HexRoundTrip | client/Game2/InternetRoom.cpp:2246 | the two hex digits of `%02x` read back as the byte |
| RoomPad.UnpadPad | client/Game2/InternetRoom.cpp:2244-2302 | decoding the padded string gives the byte string back |
| RoomPad.PadInjective | client/Game2/InternetRoom.cpp:2244-2302 | two byte strings with the same padding are equal |
| RoomChat.ChatAppend | client/Game2/InternetRoom.cpp:817-820 | the old buffer stays in front, the text ends the result, and only the two characters of `"\r\n"` come between them, none when the buffer was empty |
| RoomChat.Trim | client/Game2/InternetRoom.cpp:827-836 | the trimming loop never lengthens the buffer (TrimSpec, TrimIsMinimal and TrimKeepsLastLine state what it keeps) |
| RoomChat.FirstNewlineSpec | client/Game2/InternetRoom.cpp:828 | `find_first_of('\n')` finds the first LF, and finds none only when there is none |
| RoomChat.AppendChatLine | client/Game2/InternetRoom.cpp:817-836 | the buffer left by the append and the trimming loop is the trim of the appended buffer |
| RoomChat.TrimSpec | client/Game2/InternetRoom.cpp:827-836 | the trimmed buffer is a suffix of the buffer, at most 1600 characters or free of LF, and whatever was dropped ends with an LF |
| RoomChat.TrimIsMinimal | client/Game2/InternetRoom.cpp:827-836 | trimming stops at the first line start whose suffix fits: every longer suffix that starts a line is over 1600 characters |
| RoomChat.TrimKeepsLastLine | client/Game2/InternetRoom.cpp:827-836 | a final piece without LF is never trimmed away |
| RoomChat.AddedLineKept | client/Game2/InternetRoom.cpp:815-837 | a chat line without LF ends the buffer after AddChatLine |
| RoomVerify.MarkerAt | client/Game2/InternetRoom.cpp:1041-1048 | a line gives SUCCESS exactly when it starts with SUCCESS, an ERROR marker only when it starts with ERROR, with code -1 when no number follows, and no marker exactly when it starts with neither |
| RoomVerify.ScanReply | client/Game2/InternetRoom.cpp:1040-1051 | any marker the scan finds is the marker of some position at or after the start |
| RoomVerify.ExpectedMessage | client/Game2/InternetRoom.cpp:1057-1217 | every code gets a non-empty message, so the `while (lMessage.empty())` loop ends |
| RoomVerify.VerifyError | client/Game2/InternetRoom.cpp:1033-1226 | the result is TRUE exactly when the first SUCCESS/ERROR line is SUCCESS; on failure with a window, the message and the popup flag are those of the reply's code; otherwise no dialog |
| RoomVerify.ReadStatus | client/Game2/InternetRoom.cpp:1038-1051 | the first loop succeeds exactly when the first marked line is SUCCESS, and otherwise leaves the code read after ERROR (-1 if none) |
| RoomVerify.ErrorMessage | client/Game2/InternetRoom.cpp:1053-1217 | the second loop yields the message for the code (exact, else its hundred, else "Unknown error code"), and pops up unless the code is 601, 701, 702 or 801 |
| RoomVerify.LookupStep | client/Game2/InternetRoom.cpp:1062-1216 | one round of the switch: a known code gives its message, an unknown multiple of 100 gives "Unknown error code", any other retries with its hundred; the silent codes are known |
| RoomVerify.LookupIsExpected | client/Game2/InternetRoom.cpp:1062-1217 | the switch loop computes the expected message of any code other than -1 |
| RoomVerify.HundredIsRound | client/Game2/InternetRoom.cpp:1214 | `code - code % 100` is a multiple of 100, so the retry ends the loop |
| RoomVerify.FirstMarkedLineDecides | client/Game2/InternetRoom.cpp:1040-1051 | the first line that starts with SUCCESS or ERROR decides the reply |
| RoomVerify.UnmarkedLinesGiveNoMarker | client/Game2/InternetRoom.cpp:1040-1051 | a reply without a marked line gives no marker |
| RoomVerify.MarkerHasFirstLine | client/Game2/InternetRoom.cpp:1040-1051 | a marker comes from some first marked line |
| RoomVerify.VerifySucceedsIff | client/Game2/InternetRoom.cpp:1040-1051 | success exactly when some line starts with SUCCESS and no earlier line starts with SUCCESS or ERROR |
| RoomVerify.UnmarkedReplyIsCommunicationError | client/Game2/InternetRoom.cpp:1057-1060 | a reply without a SUCCESS or ERROR line reports "Communication error" |
| RoomVerify.MessageFallsBackToHundred | client/Game2/InternetRoom.cpp:1206-1215 | an unknown code that is not a multiple of 100 shows its hundred's message, and is never silent |
| RoomVerify.Lookup | client/Game2/InternetRoom.cpp:1062-1216 | the switch loop always ends with a non-empty message (LookupIsExpected states which) |
| RoomVerify.Suppressed | client/Game2/InternetRoom.cpp:1136-1174 | a code that clears `lPopDlg` is one the switch knows and is not a multiple of 100 |
| RoomVerify.KnownMessage | client/Game2/InternetRoom.cpp:1063-1204 | every code in the switch has a non-empty message |
| RoomState.Unsigned32 | client/Game2/InternetRoom.cpp:390 | `%u` and `(unsigned) -1` store a value below 2^32 that is congruent to the number modulo 2^32; a value in range is unchanged, and -1 becomes 0xFFFFFFFF |
| RoomState.ReadHeader | client/Game2/InternetRoom.cpp:340 | `"%d %9s"` succeeds only with an operation word of 1 to 9 characters (ReadHeaderDec states that a printed header reads back) |
| RoomState.ReadHeaderDec | client/Game2/InternetRoom.cpp:373 | a header printed as a blank, the entry's decimal text, a blank and a word of 1 to 9 characters reads back as that entry and word, with the id that `%u` reads after the word or -1 |
| RoomState.EntryAfterBlank | client/Game2/InternetRoom.cpp:340 | the entry printed after a blank converts to itself and stops at the next blank |
| RoomState.HeaderWord | client/Game2/InternetRoom.cpp:373 | once the entry converts, the word printed after it is the header's operation |
| RoomState.IdScan | client/Game2/InternetRoom.cpp:373 | the `%u` after the word reads the id printed after a blank, and fails when no digit or sign follows the blanks |
| RoomState.IdAfterBlank | client/Game2/InternetRoom.cpp:373 | the id printed after a blank converts to itself and stops at the end of its digits |
| RoomState.ReadInts | client/Game2/InternetRoom.cpp:411-418 | sscanf converts at most as many numbers as the format asks for (ReadIntsDec states that printed numbers read back) |
| RoomState.ReadIntsDec | client/Game2/InternetRoom.cpp:411-418 | numbers printed in decimal and separated by single blanks read back as exactly those numbers, when there are no more than asked for, the last is not followed by a digit, and nothing convertible follows when fewer are printed |
| RoomState.ReadIntsScans | client/Game2/InternetRoom.cpp:411-418 | sscanf yields exactly the numbers its successive conversions yield, when the next conversion fails or the format asks for no more |
| RoomState.ScansUncons | client/Game2/InternetRoom.cpp:411-418 | a non-empty run of conversions is its first conversion followed by the run of the rest, ending at the same place |
| RoomState.ReadIntsNone | client/Game2/InternetRoom.cpp:411-418 | sscanf reads no number when the format asks for none or the first conversion fails |
| RoomState.ReadIntsCons | client/Game2/InternetRoom.cpp:411-418 | a first conversion that succeeds is the first number read, and sscanf goes on where it stopped |
| RoomState.ScansSkip | client/Game2/InternetRoom.cpp:411 | a blank before the conversions changes neither what they yield nor where they stop |
| RoomState.WordsScans | client/Game2/InternetRoom.cpp:411-418 | decimal texts separated by single blanks convert one by one to their numbers and stop after the last text |
| CText.WordsStarts | client/Game2/InternetRoom.cpp:411-418 | each of the blank-separated words starts one blank after the end of the word before it, the first where the list starts, and the last ends where the list ends |
| RoomState.WordsChain | client/Game2/InternetRoom.cpp:411-418 | at the start of each printed number, its conversion yields it and stops at the blank before the next one |
| RoomState.WordsConvert | client/Game2/InternetRoom.cpp:411-418 | each printed number converts to itself and stops at the end of its text, when no digit follows the last one |
| RoomState.ChainFrom | client/Game2/InternetRoom.cpp:411-418 | conversion facts about every printed number make the chain of conversions from any of them on |
| RoomState.ScansFrom | client/Game2/InternetRoom.cpp:411-418 | a chain of conversions from the j-th number on yields the numbers from the j-th on and stops where the last one does |
| RoomState.ScansStep | client/Game2/InternetRoom.cpp:411-418 | a conversion that stops on a blank, followed by conversions that yield the rest, yields its number and then the rest |
| RoomState.ScansOne | client/Game2/InternetRoom.cpp:411-418 | a single conversion yields its number and stops where it stops |
| RoomState.ReadIds | client/Game2/InternetRoom.cpp:352-355 | both ids stay -1 when the first non-blank character is neither a digit nor a sign, and a leading `-` gives a major id of at most 0 (ReadIdsDec states that a printed pair reads back) |
| RoomState.AfterSpace | client/Game2/InternetRoom.cpp:466-470 | the pointer moves just past the first space before the terminator, or becomes NULL exactly when no space occurs before it |
| RoomState.DigitsBeforeSpace | client/Game2/InternetRoom.cpp:466-470 | after a printed index and a blank, the walk moves to the character after the blank |
| RoomState.Tokens | client/Game2/InternetRoom.cpp:457-472 | the loop reads at most one index per iteration (TokensDec states which) |
| RoomState.TokensWalk | client/Game2/InternetRoom.cpp:457-472 | the loop reads exactly the indices that atoi gives along the walk from space to space |
| RoomState.WordsWalk | client/Game2/InternetRoom.cpp:457-472 | decimal indices separated by single blanks are walked over one by one |
| RoomState.WalkBlanks | client/Game2/InternetRoom.cpp:466-470 | after each printed index but the last, strchr finds the blank that ends it and the walk moves to the next index |
| RoomState.WalkChainFrom | client/Game2/InternetRoom.cpp:457-472 | conversion and strchr facts about every index make the chain of the walk from any of them on |
| RoomState.WalksFrom | client/Game2/InternetRoom.cpp:457-472 | a chain from the j-th index on is a walk over the indices from the j-th on |
| RoomState.TokensDec | client/Game2/InternetRoom.cpp:457-472 | a client list printed as decimal indices separated by single blanks, as many as the count sent, reads back as exactly those indices |
| RoomState.Admit | client/Game2/InternetRoom.cpp:461-465 | an index of the user table is stored in the game's next slot, the count grows by one and that user's game becomes this game; any other index changes nothing; the table sizes are kept |
| RoomState.CappedCount | client/Game2/InternetRoom.cpp:447-449 | the client count is at most eMaxPlayerGame and at most the count sent, and is the count sent when that fits |
| RoomState.StepTime | client/Game2/InternetRoom.cpp:333-335 | TIME_STAMP changes only the time stamp, reports no change and stays on its line |
| RoomState.StepUser | client/Game2/InternetRoom.cpp:336-367 | a USER record changes only the user table, keeps its size, can report only the users bit, and never moves the pointer backwards |
| RoomState.StepGame | client/Game2/InternetRoom.cpp:368-481 | a GAME record keeps the time stamp, the chat and both table sizes, can report only the games bit, and never moves the pointer backwards |
| RoomState.NewGameStep | client/Game2/InternetRoom.cpp:382-476 | GAME NEW with a name line reports the games bit and keeps the time stamp, the chat and both table sizes |
| RoomState.GameOptions | client/Game2/InternetRoom.cpp:411-475 | the numbers line and client list report the games bit, keep the time stamp, the chat and both table sizes, and leave the pointer NULL when the numbers line was NULL |
| RoomState.Walk | client/Game2/InternetRoom.cpp:457-472 | the client-list loop keeps both arrays' sizes and adds at most one user per iteration (WalkIsEnlist states which) |
| RoomState.WalkAdmits | client/Game2/InternetRoom.cpp:458-471 | an iteration on a non-NULL pointer admits the atoi index there, then the walk goes on from past the next space with one iteration less |
| RoomState.WalkSkips | client/Game2/InternetRoom.cpp:457-458 | an iteration on a NULL pointer changes nothing |
| RoomState.StepChat | client/Game2/InternetRoom.cpp:482-490 | CHAT changes only the chat buffer and can report only the chat bit; without a following line it changes nothing and parsing stops |
| RoomState.Step | client/Game2/InternetRoom.cpp:333-490 | one record never moves the line pointer backwards |
| RoomState.ParseFrom | client/Game2/InternetRoom.cpp:332-493 | the change bits only accumulate |
| RoomState.GameNewEntry | client/Game2/InternetRoom.cpp:379-432 | GAME NEW leaves the entry valid, with the header's id, the name, track and address lines, the track's availability, the port from the first number (else `(unsigned) -1`), the laps from the second (else 1) and the weapons flag when exactly 11 numbers convert (else off), and reports only the games bit |
| RoomState.FreshGame | client/Game2/InternetRoom.cpp:385-391 | a new game entry is valid, has no users and keeps its client array |
| RoomState.WalkIsEnlist | client/Game2/InternetRoom.cpp:457-472 | the client-list loop adds exactly the indices its atoi/strchr walk reads |
| RoomState.EnlistBounds | client/Game2/InternetRoom.cpp:457-472 | the client-list loop stays within the game's array and lists only user entries |
| RoomState.EnlistListsAccepted | client/Game2/InternetRoom.cpp:457-472 | the game lists exactly the read indices that are user entries, in order, after those already listed, and nothing else in the game changes |
| RoomState.EnlistSetsUserGames | client/Game2/InternetRoom.cpp:461-465 | exactly the listed users get this game, and no other user changes |
| RoomState.AcceptedSpec | client/Game2/InternetRoom.cpp:461 | an index is listed exactly when it was read and is a user entry |
| RoomState.GameOptionsClientList | client/Game2/InternetRoom.cpp:411-474 | with fewer or more than 11 numbers only the fresh entry is written; with 11, only the weapons flag and the client list of the entry change, and the game lists exactly the accepted indices of the capped count, whose users now play in it |
| RoomState.GameOptionsWf | client/Game2/InternetRoom.cpp:411-474 | the options part of GAME NEW keeps every game within eMaxPlayerGame users, all of them user entries |
| RoomState.NewGameWf | client/Game2/InternetRoom.cpp:379-476 | GAME NEW keeps the tables well formed |
| RoomState.StepUserWf | client/Game2/InternetRoom.cpp:336-367 | a USER record keeps the tables well formed |
| RoomState.StepGameWf | client/Game2/InternetRoom.cpp:368-481 | a GAME record keeps the tables well formed |
| RoomState.DelGameWf | client/Game2/InternetRoom.cpp:375-378 | GAME DEL keeps the tables well formed |
| RoomState.StepKeepsWf | client/Game2/InternetRoom.cpp:333-490 | any record keeps the tables well formed |
| RoomState.ParseKeepsWf | client/Game2/InternetRoom.cpp:332-493 | a whole reply keeps the tables well formed |
| RoomState.UserDispatch | client/Game2/InternetRoom.cpp:333-336 | a line starting with USER is a USER record |
| RoomState.GameDispatch | client/Game2/InternetRoom.cpp:333-368 | a line starting with GAME is a GAME record |
| RoomState.ChatDispatch | client/Game2/InternetRoom.cpp:333-482 | a line starting with CHAT is a CHAT record |
| RoomState.UserOutOfRangeIgnored | client/Game2/InternetRoom.cpp:341 | a USER record whose entry is outside the table changes nothing |
| RoomState.GameOutOfRangeIgnored | client/Game2/InternetRoom.cpp:374 | a GAME record whose entry is outside the table changes nothing |
| RoomState.UserDelClearsValid | client/Game2/InternetRoom.cpp:342-345 | USER DEL clears that entry's valid flag, sets the users bit and changes nothing else |
| RoomState.GameDelClearsValid | client/Game2/InternetRoom.cpp:375-378 | GAME DEL clears that entry's valid flag, sets the games bit and changes nothing else |
| RoomState.UserNewEntry | client/Game2/InternetRoom.cpp:346-363 | USER NEW makes the entry valid, in no game, named by the second line, with ids -1 when the first line has no number; without a next line nothing changes and parsing stops |
| RoomState.ReadIdsDec | client/Game2/InternetRoom.cpp:355 | a `"major-minor"` line reads back as the two numbers |
| RoomState.InternetRoom.constructor | client/Game2/InternetRoom.cpp:280-310 | every user and game entry starts invalid, and the tables are well formed |
| RoomState.InternetRoom.AddChatLine | client/Game2/InternetRoom.cpp:815-837 | the buffer becomes the trim of the appended buffer, and nothing else changes |
| RoomState.InternetRoom.ParseState | client/Game2/InternetRoom.cpp:325-496 | the tables, time stamp and chat buffer become the view ParseFrom computes, the result is its change set, and the tables stay well formed |
| RoomState.InternetRoom.ParseRecord | client/Game2/InternetRoom.cpp:333-490 | one pass of the loop body does what Step states |
| RoomState.InternetRoom.ParseUser | client/Game2/InternetRoom.cpp:336-367 | the USER branch does what StepUser states |
| RoomState.InternetRoom.ParseGame | client/Game2/InternetRoom.cpp:368-481 | the GAME branch does what StepGame states |
| RoomState.InternetRoom.NewGame | client/Game2/InternetRoom.cpp:380-476 | the GAME NEW branch does what NewGameStep states |
| RoomState.InternetRoom.ReadOptions | client/Game2/InternetRoom.cpp:411-475 | the numbers line and client list do what GameOptions states |
| RoomState.InternetRoom.ListClients | client/Game2/InternetRoom.cpp:451-474 | the client-list loop leaves both tables as Walk states |
| RoomState.InternetRoom.ListOne | client/Game2/InternetRoom.cpp:458-471 | one iteration admits the atoi index and moves past the next space, touching only game e and the users |
| RoomRequest.InternetRequest.constructor | client/Game2/InternetRoom.cpp:95-101 | a new request has no socket, no reply and is not ready |
| RoomRequest.InternetRequest.IsReady | client/Game2/InternetRoom.cpp:273-276 | a ready request is not working and holds a text or binary reply |
| RoomRequest.InternetRequest.Close | client/Game2/InternetRoom.cpp:121-127 | the socket is closed and the reply and request are kept |
| RoomRequest.InternetRequest.Clear | client/Game2/InternetRoom.cpp:134-141 | the socket is closed, the reply and request are emptied, and the request is not ready |
| TrackName.CraftOpts | client/Game2/GameApp.cpp:1527-1533 | the four craft options are set exactly when `B`, `2`, `C`, `E` follow the first space counted backwards, in that order; no other option is set |
| TrackName.RuleOpts | client/Game2/GameApp.cpp:1535-1540 | the three rule options are set exactly when `W`, `M`, `C` follow the second space counted backwards; no other option is set |
| TrackName.NameOpts | client/Game2/GameApp.cpp:1523-1540 | the craft options are those after the last space and the rule options those after the one before it; a name without such a space has none of them |
| TrackName.FormatName | client/Game2/GameApp.cpp:1607-1618 | the host's name starts with the track and a space, and ends with a space and the four craft flags |
| TrackName.NthSpaceSpec | client/Game2/GameApp.cpp:1523-1525 | the n-th space counted backwards has exactly n - 1 spaces after it, and none is found only when there are fewer than n |
| TrackName.LapsOrDefault | client/Game2/GameApp.cpp:1543-1546 | the lap count is at least 1, and is the number read when that is at least 1 |
| TrackName.Decode | client/Game2/GameApp.cpp:1518-1552 | the decoded lap count is always at least 1 |
| TrackName.DecodeTrackName | client/Game2/GameApp.cpp:1518-1552 | the backward loop yields exactly the decoding of the name |
| TrackName.CountSpace | client/Game2/GameApp.cpp:1524-1540 | a space bumps the count and adds the craft flags at the first and the rule flags at the second |
| TrackName.ScanNext | client/Game2/GameApp.cpp:1523-1541 | one step of the loop keeps its count and options equal to those of the suffix scanned |
| TrackName.ScanFifth | client/Game2/GameApp.cpp:1542-1550 | at the fifth space the loop cuts the name there and reads the laps after it, as Decode does |
| TrackName.ScanEnd | client/Game2/GameApp.cpp:1523-1552 | a name with fewer than five spaces keeps its whole text and 5 laps |
| TrackName.FlagsRoundTrip | client/Game2/GameApp.cpp:1529-1532 | the four craft flags the host writes read back as its craft options |
| TrackName.RulesRoundTrip | client/Game2/GameApp.cpp:1537-1539 | the three rule flags the host writes read back as its rule options |
| TrackName.DecodeFormatName | client/Game2/GameApp.cpp:1607-1618 | a name the host formats decodes to its track, lap count and options |
| TrackName.LapsRead | client/Game2/GameApp.cpp:1543 | in a formatted name the lap count read after the track is the one written |
| GameApp.ClampWindow | client/Game2/GameApp.cpp:711-725 | the size is cut to the screen; a position past the right or bottom edge puts the window flush against it (0 if that is negative); a negative position becomes 0; the position is never negative; an in-range position or size is kept |
| GameApp.RowStartIsProduct | client/Game2/GameApp.cpp:1975-1987 | walking xRes bytes plus the line step reaches row r at r * lineLen |
| GameApp.DrawBackground | client/Game2/GameApp.cpp:1969-1989 | the first xRes bytes of each of the yRes rows are painted colour 11; the row padding and the bytes after the last row keep their values |
| GameApp.DrawnRowsStay | client/Game2/GameApp.cpp:1979-1988 | painting at or after a row's start leaves earlier rows as drawn |
| GameApp.MenuFmt | client/Game2/GameApp.cpp:756-772 | the label starts with the text, is three bytes longer with the ellipsis, and ends with a tab and the key when there is one |
| GameApp.ParseMenuFmt | client/Game2/GameApp.cpp:756-772 | a label MenuFmt builds from a tab-free text splits back into the text, the ellipsis flag and the key |
| GameApp.SplitAtTabAppend | client/Game2/GameApp.cpp:766-769 | the tab MenuFmt inserts separates the text from the key |

## Left out

- The meeting room's session machinery is not modelled. That covers the dialogs, the window messages, the banner and locate requests, the sockets and WinSock, and threads. `InternetRequest::Send` and `ProcessEvent` are socket I/O.
- The chat log file written by `AddChatLine` is left out, and so is its `neverLog` flag.
- VerifyError: the message box is not shown. The method returns the message and whether it would pop up. The `ASSERT(FALSE)` on a reply without a code is a debug check and is left out.
- Translation (`_()`, `pgettextImpl`) is the identity. The `ctx` argument of `MENUFMT` is therefore dropped.
- InternetRoom.h is not part of this model. `eMaxClient` and `eMaxGame` are the lengths of the arrays, and `eMaxPlayerGame` is a constructor parameter. The change bits are a set of `Change`.
- The `OPT_ALLOW_*` bit values are not available either, so game options are a set of `GameOpt`.
- The track bundle's `CheckAvail` is a function passed to the room's constructor.
- The seven option strings of GAME NEW are not modelled. They are passed to `%d` as `std::string` objects, which is undefined behaviour. The model keeps only which numbers convert: the block runs when exactly 11 convert.
- Integer overflow in `atoi` and `sscanf("%d")` is not modelled: numbers are unbounded.
- RoomState.Unsigned32: only the `%u` conversion into the port is taken modulo 2^32.
- RoomState.ReadHeader: the game id read by `%u` into `int lId` is kept unbounded. A number of 2^31 or more, which the source stores as a negative `int`, keeps its value in the model.
- RoomState.NewGameStep: a GAME NEW record that ends right after its address line passes NULL to `sscanf`, which is undefined behaviour in the source. ReadInts reads no numbers from a NULL pointer, so the model keeps the entry valid with port `(unsigned) -1` and one lap.
- RoomPad.UnpadPad: a character above 255 is taken modulo 256, as its low byte. UnpadPad and PadInjective therefore hold only for strings of bytes.
- DecodeTrackName: a flag read past the end of the name gives `'\0'`, as `c_str()` does at the terminator. A read beyond the terminator would be undefined behaviour in the source.
- The same decoder is repeated at client/Game2/GameApp.cpp:1726-1760. It is identical and is not modelled a second time.
- A second name formatter exists at client/Game2/InternetRoom.cpp:1887 and is not modelled.
- DrawBackground: the colour index is dead code, because both arms of its choice are 11. The frame buffer is an array of bytes, and the video buffer object is replaced by its size arguments.
- MR_Pad: only the live branch is modelled. The commented-out alternatives are not code.
- RoomRequest.InternetRequest.IsReady: the contract states only the direction from ready to not working with a reply. The converse holds by the body but is not stated as a separate property.
- RoomState.InternetRoom.constructor: the banner request's `SetBin`, the WinSock start-up and the counters it clears belong to the session machinery. The entries' unset fields are zero, and the time stamp is left unset.
