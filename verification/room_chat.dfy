/** The chat buffer of the meeting room: AddChatLine appends a line, then
    trims whole leading lines while the buffer holds more than 40 * 40
    characters. These functions state what the buffer becomes; the method
    that updates it in place is InternetRoom.AddChatLine. */
module RoomChat {
  import opened CText

  const ChatLimit: nat := 40 * 40

  /** The buffer after appending text: separated by "\r\n" unless empty.
      The old buffer stays in front, the text ends the result, and only the
      separator comes between them. */
  function ChatAppend(buffer: string, text: string): (r: string)
    ensures |r| == |buffer| + |text| + (if buffer == [] then 0 else 2)
    ensures r[..|buffer|] == buffer
    ensures r[|r| - |text|..] == text
    ensures buffer != [] ==> r[|buffer|..|buffer| + 2] == "\r\n"
  {
    if buffer == [] then text else buffer + "\r\n" + text
  }

  /** find_first_of('\n'). */
  function FirstNewline(s: string): (r: Option<nat>)
    ensures r.Some? ==> r.value < |s|
  {
    NewlineFrom(s, 0)
  }

  /** The first '\n' at or after index k. */
  function NewlineFrom(s: string, k: nat): (r: Option<nat>)
    requires k <= |s|
    ensures r.Some? ==> k <= r.value < |s|
    decreases |s| - k
  {
    if k == |s| then None
    else if s[k] == '\n' then Some(k)
    else NewlineFrom(s, k + 1)
  }

  /** NewlineFrom finds the first '\n' from k on, and finds none only when
      there is none. */
  lemma {:induction false} NewlineFromSpec(s: string, k: nat)
    requires k <= |s|
    ensures NewlineFrom(s, k).Some? ==> s[NewlineFrom(s, k).value] == '\n'
    ensures NewlineFrom(s, k).Some? ==> forall j :: k <= j < NewlineFrom(s, k).value ==> s[j] != '\n'
    ensures NewlineFrom(s, k).None? ==> forall j :: k <= j < |s| ==> s[j] != '\n'
    decreases |s| - k
  {
    if k < |s| && s[k] != '\n' {
      NewlineFromSpec(s, k + 1);
    }
  }

  /** FirstNewline finds the first '\n', and finds none only when there is
      none. */
  lemma FirstNewlineSpec(s: string)
    ensures FirstNewline(s).Some? ==> s[FirstNewline(s).value] == '\n'
    ensures FirstNewline(s).Some? ==> forall k :: 0 <= k < FirstNewline(s).value ==> s[k] != '\n'
    ensures FirstNewline(s).None? ==> '\n' !in s
  {
    NewlineFromSpec(s, 0);
  }

  predicate IsSuffix(t: string, s: string)
  {
    |t| <= |s| && s[|s| - |t|..] == t
  }

  /** The trimming loop of AddChatLine: while the buffer is too long, drop
      everything up to and including its first '\n'. */
  function Trim(s: string): (r: string)
    ensures |r| <= |s|
    decreases |s|
  {
    if |s| <= ChatLimit then s
    else match FirstNewline(s)
      case None => s
      case Some(i) => Trim(s[i + 1..])
  }

  /** The trimmed buffer is a suffix of the buffer that is short enough or
      holds no '\n', and anything dropped ends with a '\n'. */
  lemma {:induction false} TrimSpec(s: string)
    ensures IsSuffix(Trim(s), s)
    ensures |Trim(s)| <= ChatLimit || '\n' !in Trim(s)
    ensures Trim(s) == s || s[|s| - |Trim(s)| - 1] == '\n'
    decreases |s|
  {
    FirstNewlineSpec(s);
    if |s| > ChatLimit && FirstNewline(s).Some? {
      var i := FirstNewline(s).value;
      var rest := s[i + 1..];
      TrimSpec(rest);
      TrimDropsFirstLine(s);
      SuffixOfDrop(s, i + 1, Trim(rest));
    }
  }

  /** A suffix of s[k..] is a suffix of s, and the character before it in
      s is the one before it in s[k..], or s[k - 1] when it is all of
      s[k..]. */
  lemma SuffixOfDrop(s: string, k: nat, r: string)
    requires 0 < k <= |s| && IsSuffix(r, s[k..])
    ensures IsSuffix(r, s) && r != s
    ensures |r| < |s| - k ==> s[|s| - |r| - 1] == s[k..][|s| - k - |r| - 1]
    ensures |r| == |s| - k ==> s[|s| - |r| - 1] == s[k - 1]
  {
    assert s[|s| - |r|..] == s[k..][|s| - k - |r|..];
  }

  /** The body of AddChatLine on the buffer's value: append, then drop
      leading lines while the buffer is too long. */
  method AppendChatLine(chat: string, text: string) returns (buffer: string)
    ensures buffer == Trim(ChatAppend(chat, text))
  {
    buffer := chat;
    if buffer != [] {
      buffer := buffer + "\r\n";
    }
    buffer := buffer + text;
    assert buffer == ChatAppend(chat, text);
    ghost var target := Trim(ChatAppend(chat, text));
    while |buffer| > ChatLimit
      invariant Trim(buffer) == target
      decreases |buffer|
    {
      var idx := FirstNewline(buffer);
      if idx.None? {
        break;
      }
      TrimDropsFirstLine(buffer);
      buffer := buffer[idx.value + 1..];
    }
    TrimDone(buffer);
  }

  /** One round of the trimming loop. */
  lemma TrimDropsFirstLine(s: string)
    requires |s| > ChatLimit && FirstNewline(s).Some?
    ensures Trim(s) == Trim(s[FirstNewline(s).value + 1..])
  {
  }

  /** The trimming loop stops when the buffer is short enough or holds no
      '\n'. */
  lemma TrimDone(s: string)
    requires |s| <= ChatLimit || FirstNewline(s).None?
    ensures Trim(s) == s
  {
  }

  /** Text without a '\n' that ends the buffer survives the trimming whole. */
  lemma {:induction false} TrimKeepsLastLine(s: string, text: string)
    requires IsSuffix(text, s) && '\n' !in text
    ensures IsSuffix(text, Trim(s))
    decreases |s|
  {
    if |s| > ChatLimit && FirstNewline(s).Some? {
      var i := FirstNewline(s).value;
      FirstNewlineSpec(s);
      assert forall k :: |s| - |text| <= k < |s| ==> s[k] == text[k - (|s| - |text|)];
      assert i < |s| - |text|;
      var rest := s[i + 1..];
      assert rest[|rest| - |text|..] == s[|s| - |text|..];
      TrimKeepsLastLine(rest, text);
    }
  }

  /** The trimming stops as soon as it may: every longer suffix that starts
      a line is over the limit. */
  lemma {:induction false} TrimIsMinimal(s: string, j: nat)
    requires j < |s| - |Trim(s)|
    requires j == 0 || s[j - 1] == '\n'
    ensures |s| - j > ChatLimit
    decreases |s|
  {
    TrimUnfold(s);
    FirstNewlineSpec(s);
    var i := FirstNewline(s).value;
    var rest := s[i + 1..];
    if j > 0 {
      assert j - 1 >= i;
      if j == i + 1 {
        TrimUnfold(rest);
      } else {
        assert rest[j - (i + 1) - 1] == s[j - 1];
        TrimIsMinimal(rest, j - (i + 1));
      }
    }
  }

  /** A buffer that trimming shortens is over the limit, holds a '\n', and
      trims as the rest after its first line does. */
  lemma TrimUnfold(s: string)
    requires |Trim(s)| < |s|
    ensures |s| > ChatLimit && FirstNewline(s).Some?
    ensures Trim(s) == Trim(s[FirstNewline(s).value + 1..])
  {
  }

  /** A chat line without '\n' is in the buffer after it has been added. */
  lemma AddedLineKept(buffer: string, text: string)
    requires '\n' !in text
    ensures IsSuffix(text, Trim(ChatAppend(buffer, text)))
  {
    var s := ChatAppend(buffer, text);
    assert s[|s| - |text|..] == text;
    TrimKeepsLastLine(s, text);
  }
}
