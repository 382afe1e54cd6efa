/** The name a hosted game is advertised under, and how a joining client
    recovers the lap count and the game options from it. The host writes
    "<track> <laps> lap[s]; options WMC, B2CE" with '_' for every option that
    is off; the client counts spaces from the end of the name: the first one
    is followed by the four craft flags, the second by the three rule flags,
    and the fifth by the lap count, where the track name is cut. Counting from
    the end lets the track name itself contain spaces. */
module TrackName {
  import opened CText

  /** The game options a name carries: weapons, mines and cans, and the four
      crafts allowed (basic, bi-turbo, CX and Eon). */
  datatype GameOpt = Weapons | Mines | Cans | Basic | Bi | Cx | Eon

  /** What a client recovers from an advertised name. */
  datatype Decoded = Decoded(track: string, laps: int, opts: set<GameOpt>)

  /** The number of spaces among s[lo..hi]. */
  function SpacesIn(s: string, lo: nat, hi: nat): nat
    requires hi <= |s|
    decreases hi
  {
    if hi <= lo then 0 else SpacesIn(s, lo, hi - 1) + (if s[hi - 1] == ' ' then 1 else 0)
  }

  /** The n-th space counted backwards from index hi (exclusive). */
  function NthSpace(s: string, n: nat, hi: nat): (r: Option<nat>)
    requires 1 <= n && hi <= |s|
    ensures r.Some? ==> r.value < hi
    decreases hi
  {
    if hi == 0 then None
    else if s[hi - 1] == ' ' then
      if n == 1 then Some(hi - 1) else NthSpace(s, n - 1, hi - 1)
    else NthSpace(s, n, hi - 1)
  }

  /** NthSpace finds a space with exactly n - 1 spaces after it before hi,
      and finds none only when there are fewer than n spaces before hi. */
  lemma {:induction false} NthSpaceSpec(s: string, n: nat, hi: nat)
    requires 1 <= n && hi <= |s|
    ensures var r := NthSpace(s, n, hi);
      && (r.Some? ==> s[r.value] == ' ' && SpacesIn(s, r.value + 1, hi) == n - 1)
      && (r.None? ==> SpacesIn(s, 0, hi) < n)
    decreases hi
  {
    if hi > 0 {
      if s[hi - 1] == ' ' && n > 1 {
        NthSpaceSpec(s, n - 1, hi - 1);
      } else if s[hi - 1] != ' ' {
        NthSpaceSpec(s, n, hi - 1);
      }
    }
  }

  /** The option that a flag character at index i of s turns on. */
  function FlagAt(s: string, i: nat, c: char, opt: GameOpt): set<GameOpt>
  {
    if At(s, i) == c then {opt} else {}
  }

  /** The craft flags "B2CE" that follow the space at i. */
  function CraftOpts(s: string, i: nat): (opts: set<GameOpt>)
    ensures opts <= {Basic, Bi, Cx, Eon}
    ensures Basic in opts <==> At(s, i + 1) == 'B'
    ensures Bi in opts <==> At(s, i + 2) == '2'
    ensures Cx in opts <==> At(s, i + 3) == 'C'
    ensures Eon in opts <==> At(s, i + 4) == 'E'
  {
    FlagAt(s, i + 1, 'B', Basic) + FlagAt(s, i + 2, '2', Bi) + FlagAt(s, i + 3, 'C', Cx) + FlagAt(s, i + 4, 'E', Eon)
  }

  /** The rule flags "WMC" that follow the space at i. */
  function RuleOpts(s: string, i: nat): (opts: set<GameOpt>)
    ensures opts <= {Weapons, Mines, Cans}
    ensures Weapons in opts <==> At(s, i + 1) == 'W'
    ensures Mines in opts <==> At(s, i + 2) == 'M'
    ensures Cans in opts <==> At(s, i + 3) == 'C'
  {
    FlagAt(s, i + 1, 'W', Weapons) + FlagAt(s, i + 2, 'M', Mines) + FlagAt(s, i + 3, 'C', Cans)
  }

  /** The lap count a client plays: the number read, or the default 5 when
      it is below 1. */
  function LapsOrDefault(n: int): (laps: int)
    ensures laps >= 1
    ensures n >= 1 ==> laps == n
  {
    if n < 1 then 5 else n
  }

  /** The options a name carries: craft flags after its last space and rule
      flags after its second-last. */
  function NameOpts(s: string): (opts: set<GameOpt>)
    ensures opts * {Basic, Bi, Cx, Eon} ==
      if NthSpace(s, 1, |s|).Some? then CraftOpts(s, NthSpace(s, 1, |s|).value) else {}
    ensures opts * {Weapons, Mines, Cans} ==
      if NthSpace(s, 2, |s|).Some? then RuleOpts(s, NthSpace(s, 2, |s|).value) else {}
  {
    var first := NthSpace(s, 1, |s|);
    var second := NthSpace(s, 2, |s|);
    (if first.Some? then CraftOpts(s, first.value) else {})
      + (if second.Some? then RuleOpts(s, second.value) else {})
  }

  /** What a joining client takes from the advertised name s: its options
      and, when there is a fifth space from the end, the lap count after it
      and the track name before it; otherwise the whole name and 5 laps. */
  function Decode(s: string): (r: Decoded)
    ensures r.laps >= 1
  {
    match NthSpace(s, 5, |s|)
    case None => Decoded(s, 5, NameOpts(s))
    case Some(i) => Decoded(s[..i], LapsOrDefault(Atoi(s, i + 1)), NameOpts(s))
  }

  /** The decoding loop as the client runs it: backwards over the name,
      counting spaces, reading the flags at the first and second, and at the
      fifth reading the lap count and cutting the name. Characters past the
      end of the name read as '\0'. */
  method DecodeTrackName(name: string) returns (track: string, laps: int, opts: set<GameOpt>)
    ensures Decoded(track, laps, opts) == Decode(name)
  {
    var spaceCount := 0;
    laps := 5;
    opts := {};
    track := name;
    var counter := |name| - 1;
    while counter >= 0
      invariant -1 <= counter && track == name && laps == 5
      invariant SuffixScanned(name, counter + 1, spaceCount, opts)
      decreases counter + 1
    {
      ghost var before, seen := opts, spaceCount;
      if name[counter] == ' ' {
        spaceCount, opts := CountSpace(name, counter, spaceCount, opts);
        if spaceCount == 5 {
          ScanFifth(name, counter + 1, before);
          laps := Atoi(name, counter + 1);
          if laps < 1 {
            laps := 5;
          }
          track := name[..counter];
          break;
        }
      }
      ScanNext(name, counter, seen, before, spaceCount, opts);
      counter := counter - 1;
    }
    if counter < 0 {
      ScanEnd(name, spaceCount, opts);
    }
  }

  /** The decoding loop at a space: one more space seen, and the flags after
      it read when it is the first or the second. */
  method CountSpace(name: string, counter: nat, k: nat, opts: set<GameOpt>) returns (k': nat, opts': set<GameOpt>)
    ensures k' == k + 1
    ensures opts' == opts + (if k' == 1 then CraftOpts(name, counter) else {}) + (if k' == 2 then RuleOpts(name, counter) else {})
  {
    k', opts' := k + 1, opts;
    if k' == 1 {
      opts' := opts' + CraftOpts(name, counter);
    }
    if k' == 2 {
      opts' := opts' + RuleOpts(name, counter);
    }
  }

  /** The loop's state after scanning name[hi..] backwards: k < 5 spaces
      seen, the spaces still to find are the ones before hi, and opts holds
      the flags of the spaces seen. */
  predicate SuffixScanned(s: string, hi: nat, k: nat, opts: set<GameOpt>)
  {
    && hi <= |s| && k < 5
    && NthSpace(s, 5 - k, hi) == NthSpace(s, 5, |s|)
    && (k == 0 ==> NthSpace(s, 1, hi) == NthSpace(s, 1, |s|))
    && (k <= 1 ==> NthSpace(s, 2 - k, hi) == NthSpace(s, 2, |s|))
    && (k >= 1 ==> NthSpace(s, 1, |s|).Some?)
    && (k >= 2 ==> NthSpace(s, 2, |s|).Some?)
    && opts == (if k >= 1 then CraftOpts(s, NthSpace(s, 1, |s|).value) else {})
             + (if k >= 2 then RuleOpts(s, NthSpace(s, 2, |s|).value) else {})
  }

  /** A character of the name other than the fifth space from the end
      keeps the decoding loop's state: a space counts one more and has the
      flags after it read when it is the first or the second. */
  lemma ScanNext(s: string, i: nat, k: nat, opts: set<GameOpt>, k': nat, opts': set<GameOpt>)
    requires i < |s| && SuffixScanned(s, i + 1, k, opts)
    requires s[i] == ' ' ==> k' == k + 1 < 5 && opts' == opts + (if k' == 1 then CraftOpts(s, i) else {}) + (if k' == 2 then RuleOpts(s, i) else {})
    requires s[i] != ' ' ==> k' == k && opts' == opts
    ensures SuffixScanned(s, i, k', opts')
  {
  }

  /** The fifth space found is the one Decode cuts at, with all the flags
      read. */
  lemma ScanFifth(s: string, hi: nat, opts: set<GameOpt>)
    requires 0 < hi && SuffixScanned(s, hi, 4, opts) && s[hi - 1] == ' '
    ensures NthSpace(s, 5, |s|) == Some(hi - 1) && opts == NameOpts(s)
    ensures Decode(s) == Decoded(s[..hi - 1], LapsOrDefault(Atoi(s, hi)), opts)
  {
  }

  /** A loop that reaches the start of the name has found fewer than five
      spaces and read all the flags. */
  lemma ScanEnd(s: string, k: nat, opts: set<GameOpt>)
    requires SuffixScanned(s, 0, k, opts)
    ensures NthSpace(s, 5, |s|).None? && opts == NameOpts(s)
    ensures Decode(s) == Decoded(s, 5, opts)
  {
  }

  /** The flag character the host writes for an option: its letter when on,
      '_' when off. */
  function Flag(opts: set<GameOpt>, opt: GameOpt, c: char): char
  {
    if opt in opts then c else '_'
  }

  /** The rule flags the host writes: "WMC" with '_' for each one off. */
  function RuleFlags(opts: set<GameOpt>): string
  {
    [Flag(opts, Weapons, 'W'), Flag(opts, Mines, 'M'), Flag(opts, Cans, 'C')]
  }

  /** The craft flags the host writes: "B2CE" with '_' for each one off. */
  function CraftFlags(opts: set<GameOpt>): string
  {
    [Flag(opts, Basic, 'B'), Flag(opts, Bi, '2'), Flag(opts, Cx, 'C'), Flag(opts, Eon, 'E')]
  }

  /** The host's name for a game: "%s %d %s; options %c%c%c, %c%c%c%c" of the
      track, the lap count, "laps" or "lap", the rule flags and the craft
      flags. */
  function FormatName(track: string, laps: int, opts: set<GameOpt>): (name: string)
    ensures |track| + 5 < |name|
    ensures name[..|track|] == track && name[|track|] == ' '
    ensures name[|name| - 4..] == CraftFlags(opts) && name[|name| - 5] == ' '
  {
    track + " " + IntToDec(laps) + " " + (if laps > 1 then "laps" else "lap")
      + ";" + " " + "options" + " " + RuleFlags(opts) + "," + " " + CraftFlags(opts)
  }

  /** No space among s[lo..hi]. */
  predicate NoSpace(s: string, lo: nat, hi: nat)
    requires lo <= hi <= |s|
  {
    forall k :: lo <= k < hi ==> s[k] != ' '
  }

  /** Counting backwards passes over a stretch without spaces. */
  lemma {:induction false} SkipNoSpace(s: string, n: nat, lo: nat, hi: nat)
    requires 1 <= n && lo <= hi <= |s| && NoSpace(s, lo, hi)
    ensures NthSpace(s, n, hi) == NthSpace(s, n, lo)
    decreases hi
  {
    if lo < hi {
      SkipNoSpace(s, n, lo, hi - 1);
    }
  }

  /** Counting backwards from hi only looks at the characters before hi. */
  lemma {:induction false} NthSpacePrefix(x: string, y: string, n: nat, hi: nat)
    requires 1 <= n && hi <= |x|
    ensures NthSpace(x + y, n, hi) == NthSpace(x, n, hi)
    decreases hi
  {
    if hi > 0 {
      assert (x + y)[hi - 1] == x[hi - 1];
      if n > 1 {
        NthSpacePrefix(x, y, n - 1, hi - 1);
      }
      NthSpacePrefix(x, y, n, hi - 1);
    }
  }

  /** Appending characters other than spaces moves no space. */
  lemma AppendNoSpace(x: string, y: string, n: nat)
    requires 1 <= n && ' ' !in y
    ensures NthSpace(x + y, n, |x + y|) == NthSpace(x, n, |x|)
  {
    var s := x + y;
    assert NoSpace(s, |x|, |s|) by {
      forall k | |x| <= k < |s|
        ensures s[k] != ' '
      {
        assert s[k] == y[k - |x|];
      }
    }
    SkipNoSpace(s, n, |x|, |s|);
    NthSpacePrefix(x, y, n, |x|);
  }

  /** Appending a space makes it the first from the end. */
  lemma AppendSpace(x: string, n: nat)
    requires 1 <= n
    ensures NthSpace(x + " ", n, |x| + 1) == if n == 1 then Some(|x|) else NthSpace(x, n - 1, |x|)
  {
    if n > 1 {
      NthSpacePrefix(x, " ", n - 1, |x|);
    }
  }

  /** The flags of a host's name read back as the options written. */
  lemma FlagsRoundTrip(s: string, i: nat, opts: set<GameOpt>)
    requires i + 4 < |s|
    requires s[i + 1..i + 5] == CraftFlags(opts)
    ensures CraftOpts(s, i) == opts * {Basic, Bi, Cx, Eon}
  {
    assert s[i + 1] == CraftFlags(opts)[0] && s[i + 2] == CraftFlags(opts)[1];
    assert s[i + 3] == CraftFlags(opts)[2] && s[i + 4] == CraftFlags(opts)[3];
  }

  lemma RulesRoundTrip(s: string, i: nat, opts: set<GameOpt>)
    requires i + 3 < |s|
    requires s[i + 1..i + 4] == RuleFlags(opts)
    ensures RuleOpts(s, i) == opts * {Weapons, Mines, Cans}
  {
    assert s[i + 1] == RuleFlags(opts)[0] && s[i + 2] == RuleFlags(opts)[1];
    assert s[i + 3] == RuleFlags(opts)[2];
  }

  /** Every option is a craft or a rule. */
  lemma OptsSplit(opts: set<GameOpt>)
    ensures opts * {Basic, Bi, Cx, Eon} + opts * {Weapons, Mines, Cans} == opts
  {
    forall o | o in opts
      ensures o in opts * {Basic, Bi, Cx, Eon} + opts * {Weapons, Mines, Cans}
    {
      match o
      case Weapons =>
      case Mines =>
      case Cans =>
      case Basic =>
      case Bi =>
      case Cx =>
      case Eon =>
    }
  }

  /** A name the host wrote decodes to the track, lap count and options it
      was written from, for any track name (spaces included) and any lap
      count of at least 1. */
  lemma DecodeFormatName(track: string, laps: int, opts: set<GameOpt>)
    requires laps >= 1
    ensures Decode(FormatName(track, laps, opts)) == Decoded(track, laps, opts)
  {
    var s := FormatName(track, laps, opts);
    var rule, craft := |RulePrefix(track, laps)|, |CraftPrefix(track, laps, opts)|;
    FirstSpace(track, laps, opts);
    SecondSpace(track, laps, opts);
    FifthSpace(track, laps, opts);
    LapsRead(track, laps, opts);
    DecodeFields(s, track, laps, opts, rule, craft);
  }

  /** A name whose last, second-last and fifth-last spaces are followed by
      the craft flags, the rule flags and the lap count decodes to them. */
  lemma DecodeFields(s: string, track: string, laps: int, opts: set<GameOpt>, rule: nat, craft: nat)
    requires laps >= 1 && 0 < rule && 0 < craft
    requires NthSpace(s, 1, |s|) == Some(craft - 1) && craft <= |s| && s[craft..] == CraftFlags(opts)
    requires NthSpace(s, 2, |s|) == Some(rule - 1) && rule + 3 <= |s| && s[rule..rule + 3] == RuleFlags(opts)
    requires NthSpace(s, 5, |s|) == Some(|track|) && s[..|track|] == track && Atoi(s, |track| + 1) == laps
    ensures Decode(s) == Decoded(track, laps, opts)
  {
    NameOptsFields(s, opts, rule, craft);
  }

  /** The options of a name whose last and second-last spaces are followed
      by the craft and the rule flags are the options those flags write. */
  lemma NameOptsFields(s: string, opts: set<GameOpt>, rule: nat, craft: nat)
    requires 0 < rule && 0 < craft
    requires NthSpace(s, 1, |s|) == Some(craft - 1) && craft <= |s| && s[craft..] == CraftFlags(opts)
    requires NthSpace(s, 2, |s|) == Some(rule - 1) && rule + 3 <= |s| && s[rule..rule + 3] == RuleFlags(opts)
    ensures NameOpts(s) == opts
  {
    assert s[craft..craft + 4] == CraftFlags(opts);
    FlagsRoundTrip(s, craft - 1, opts);
    RulesRoundTrip(s, rule - 1, opts);
    OptsSplit(opts);
  }

  /** The part of a host's name before its rule flags, which ends with the
      second space from the end. */
  function RulePrefix(track: string, laps: int): string
  {
    track + " " + IntToDec(laps) + " " + (if laps > 1 then "laps" else "lap") + ";" + " " + "options" + " "
  }

  /** The part of a host's name before its craft flags, which ends with its
      last space. */
  function CraftPrefix(track: string, laps: int, opts: set<GameOpt>): string
  {
    RulePrefix(track, laps) + RuleFlags(opts) + "," + " "
  }

  lemma FormatNameParts(track: string, laps: int, opts: set<GameOpt>)
    ensures FormatName(track, laps, opts) == CraftPrefix(track, laps, opts) + CraftFlags(opts)
  {
  }

  /** The last space of a host's name is the one before the craft flags. */
  lemma FirstSpace(track: string, laps: int, opts: set<GameOpt>)
    ensures var s := FormatName(track, laps, opts);
      var craft := |CraftPrefix(track, laps, opts)|;
      NthSpace(s, 1, |s|) == Some(craft - 1) && s[craft..] == CraftFlags(opts)
  {
    FormatNameParts(track, laps, opts);
    var j := RulePrefix(track, laps) + RuleFlags(opts) + ",";
    AppendSpace(j, 1);
    AppendNoSpace(CraftPrefix(track, laps, opts), CraftFlags(opts), 1);
  }

  /** Counting n spaces back from the end of a host's name is counting n - 1
      back from the end of the rule flags. */
  lemma CraftTail(track: string, laps: int, opts: set<GameOpt>, n: nat)
    requires n >= 2
    ensures var s := FormatName(track, laps, opts);
      var rule := RulePrefix(track, laps);
      NthSpace(s, n, |s|) == NthSpace(rule, n - 1, |rule|)
  {
    FormatNameParts(track, laps, opts);
    var rule := RulePrefix(track, laps);
    var i := rule + RuleFlags(opts);
    var j := i + ",";
    AppendNoSpace(rule, RuleFlags(opts), n - 1);
    AppendNoSpace(i, ",", n - 1);
    AppendSpace(j, n);
    AppendNoSpace(CraftPrefix(track, laps, opts), CraftFlags(opts), n);
  }

  /** The second space from the end of a host's name is the one before the
      rule flags. */
  lemma SecondSpace(track: string, laps: int, opts: set<GameOpt>)
    ensures var s := FormatName(track, laps, opts);
      var rule := |RulePrefix(track, laps)|;
      NthSpace(s, 2, |s|) == Some(rule - 1) && rule + 3 <= |s| && s[rule..rule + 3] == RuleFlags(opts)
  {
    CraftTail(track, laps, opts, 2);
    FormatNameParts(track, laps, opts);
    var s := FormatName(track, laps, opts);
    var rule := RulePrefix(track, laps);
    assert s == rule + (RuleFlags(opts) + "," + " " + CraftFlags(opts));
    var h := track + " " + IntToDec(laps) + " " + (if laps > 1 then "laps" else "lap") + ";" + " " + "options";
    AppendSpace(h, 1);
  }

  /** The fifth space from the end of a host's name follows the track. */
  lemma FifthSpace(track: string, laps: int, opts: set<GameOpt>)
    requires laps >= 1
    ensures var s := FormatName(track, laps, opts);
      NthSpace(s, 5, |s|) == Some(|track|)
  {
    CraftTail(track, laps, opts, 5);
    var d := IntToDec(laps);
    var word := if laps > 1 then "laps" else "lap";
    assert ' ' !in d by {
      assert d == NatToDec(laps);
    }
    var a := track + " ";
    var b := a + d;
    var c := b + " ";
    var e := c + word;
    var f := e + ";";
    var g := f + " ";
    var h := g + "options";
    AppendSpace(track, 1);
    AppendNoSpace(a, d, 1);
    AppendSpace(b, 2);
    AppendNoSpace(c, word, 2);
    AppendNoSpace(e, ";", 2);
    AppendSpace(f, 3);
    AppendNoSpace(g, "options", 3);
    AppendSpace(h, 4);
  }

  /** The track of a host's name is what precedes its fifth space from the
      end, and the lap count reads back after it. */
  lemma LapsRead(track: string, laps: int, opts: set<GameOpt>)
    requires laps >= 1
    ensures var s := FormatName(track, laps, opts);
      |track| < |s| && s[..|track|] == track && Atoi(s, |track| + 1) == laps
  {
    var s := FormatName(track, laps, opts);
    var d := IntToDec(laps);
    var b := track + " " + d;
    var rest := " " + (if laps > 1 then "laps" else "lap") + ";" + " " + "options" + " "
      + RuleFlags(opts) + "," + " " + CraftFlags(opts);
    assert s == b + rest;
    assert s[..|track|] == track;
    assert s[|track| + 1..|track| + 1 + |d|] == d;
    assert s[|b|] == ' ';
    AtoiDec(s, |track| + 1, laps);
  }
}
