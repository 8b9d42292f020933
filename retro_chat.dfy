/** The chat window (frontend/src/components/RetroChat.jsx): a log of chat
    entries bound to one recipient, fed by the recipient's frames and by the
    local user's sends. */
module RetroChat {
  import opened Wire

  /** The longest input the text field accepts (`maxLength`). */
  const MaxInput: int := 50

  /** One line of the log; the display time is not modelled. */
  datatype Entry = Entry(sender: string, text: string)

  /** The entry every window starts with. */
  function Greeting(recipient: string): Entry
  {
    Entry("SYSTEM", "Connected to " + recipient)
  }

  // ---------------------------------------------------------------------
  // String.prototype.trim

  /** The white space and line terminators that `trim` removes. */
  predicate IsJsSpace(c: char)
  {
    || c == '\t' || c == '\n' || c == '\U{0B}' || c == '\U{0C}' || c == '\r' || c == ' '
    || c == '\U{A0}' || c == '\U{1680}' || ('\U{2000}' <= c <= '\U{200A}')
    || c == '\U{2028}' || c == '\U{2029}' || c == '\U{202F}' || c == '\U{205F}'
    || c == '\U{3000}' || c == '\U{FEFF}'
  }

  /** `s` without its leading white space. */
  function TrimStart(s: string): (r: string)
    ensures |r| <= |s| && r == s[|s| - |r|..]
    ensures forall i :: 0 <= i < |s| - |r| ==> IsJsSpace(s[i])
    ensures r != [] ==> !IsJsSpace(r[0])
  {
    if s != [] && IsJsSpace(s[0]) then TrimStart(s[1..]) else s
  }

  /** `s` without its trailing white space. */
  function TrimEnd(s: string): (r: string)
    ensures |r| <= |s| && r == s[..|r|]
    ensures forall i :: |r| <= i < |s| ==> IsJsSpace(s[i])
    ensures r != [] ==> !IsJsSpace(r[|r| - 1])
  {
    if s != [] && IsJsSpace(s[|s| - 1]) then TrimEnd(s[..|s| - 1]) else s
  }

  function Trim(s: string): string
  {
    TrimEnd(TrimStart(s))
  }

  /** Only white space, or nothing at all. */
  predicate Blank(s: string)
  {
    forall i :: 0 <= i < |s| ==> IsJsSpace(s[i])
  }

  /** `!s.trim()` holds exactly for the blank strings. */
  lemma TrimEmptyIffBlank(s: string)
    ensures Trim(s) == "" <==> Blank(s)
  {
    var t := TrimStart(s);
    if Trim(s) == "" {
      if t != [] {
        assert false;
      }
    } else {
      var r := Trim(s);
      assert r[0] == t[0];
      if t == s {
        assert !IsJsSpace(s[0]);
      } else {
        assert s[|s| - |t|] == t[0];
      }
    }
  }

  /** The input test of `handleSend`, `!inputValue.trim()`. */
  function TrimsToEmpty(s: string): (b: bool)
    ensures b <==> Blank(s)
  {
    TrimEmptyIffBlank(s);
    Trim(s) == ""
  }

  // ---------------------------------------------------------------------
  // String.prototype.toUpperCase, on ASCII letters

  function UpperChar(c: char): char
  {
    if 'a' <= c <= 'z' then (c as int - 32) as char else c
  }

  /** `s.toUpperCase()`: every ASCII lower-case letter raised, every other
      character kept. */
  function ToUpper(s: string): (u: string)
    ensures |u| == |s|
    ensures forall i :: 0 <= i < |s| ==> u[i] == UpperChar(s[i])
  {
    if s == [] then [] else [UpperChar(s[0])] + ToUpper(s[1..])
  }

  /** No lower-case ASCII letter survives. */
  lemma ToUpperHasNoLowerCase(s: string)
    ensures forall i :: 0 <= i < |s| ==> !('a' <= ToUpper(s)[i] <= 'z')
  {
  }

  /** The frames the window keeps: chat frames from its recipient. `sender`
      is omitted from the JSON when empty, and `undefined` equals no
      string. */
  predicate Accepts(data: Message, recipient: string)
  {
    data.kind == "chat" && OmitEmptyEquals(data.sender, recipient)
  }

  class Session {
    /** The props: the bound recipient, and whether a socket was passed. */
    const recipient: string
    const socketPresent: bool
    /** `localStorage.getItem('username')`. */
    const currentUser: string
    var messages: seq<Entry>
    var inputValue: string
    /** The frames sent on the socket so far. */
    var sent: seq<Message>

    /** The log starts with the greeting, and the input fits the field. */
    ghost predicate Valid()
      reads this
    {
      |messages| >= 1 && messages[0] == Greeting(recipient) && |inputValue| <= MaxInput
    }

    constructor (recipient: string, currentUser: string, socketPresent: bool)
      ensures Valid()
      ensures this.recipient == recipient && this.currentUser == currentUser && this.socketPresent == socketPresent
      ensures messages == [Greeting(recipient)] && inputValue == "" && sent == []
    {
      this.recipient := recipient;
      this.currentUser := currentUser;
      this.socketPresent := socketPresent;
      messages := [Greeting(recipient)];
      inputValue := "";
      sent := [];
    }

    /** The input's `onChange`; the field holds at most `MaxInput`
        characters. */
    method SetInput(s: string)
      requires Valid() && |s| <= MaxInput
      modifies this`inputValue
      ensures Valid() && inputValue == s
    {
      inputValue := s;
    }

    /** The socket's message listener (installed only when there is a
        socket): a chat frame from the recipient is appended, any other
        frame is dropped. */
    method HandleMessage(data: Message)
      requires Valid()
      modifies this`messages
      ensures Valid()
      ensures old(messages) <= messages
      ensures messages == old(messages) + (if socketPresent && Accepts(data, recipient)
                                           then [Entry(data.sender, data.message)] else [])
    {
      if !socketPresent {
        return;
      }
      if data.kind == "chat" && OmitEmptyEquals(data.sender, recipient) {
        messages := messages + [Entry(data.sender, data.message)];
      }
    }

    /** `handleSend`: blank input, a missing socket or an empty recipient
        change nothing. Otherwise the log gets the upper-cased text under
        the local user's name, the wire gets the text as typed, and the
        input is cleared. */
    method HandleSend()
      requires Valid()
      modifies this`messages, this`inputValue, this`sent
      ensures Valid()
      ensures old(messages) <= messages
      ensures if Blank(old(inputValue)) || !socketPresent || recipient == "" then
          messages == old(messages) && inputValue == old(inputValue) && sent == old(sent)
        else
          && messages == old(messages) + [Entry(currentUser, ToUpper(old(inputValue)))]
          && sent == old(sent) + [ChatFrame(recipient, old(inputValue), currentUser)]
          && inputValue == ""
    {
      if TrimsToEmpty(inputValue) || !socketPresent || recipient == "" {
        return;
      }
      messages := messages + [Entry(currentUser, ToUpper(inputValue))];
      sent := sent + [ChatFrame(recipient, inputValue, currentUser)];
      inputValue := "";
    }
  }
}
