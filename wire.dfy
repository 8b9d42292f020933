/** The JSON frames exchanged over the game's WebSocket, shared by the browser
    client and the Go server. */
module Wire {

  datatype Option<T> = None | Some(value: T)

  /** One frame, with the fields of the server's `Message` struct
      (backend/server/client.go:23-33). A field the frame does not carry is
      "" (strings) or 0 (row and col), which is also what Go's decoder leaves
      in it. `kind` is the JSON field "type". */
  datatype Message = Message(
    username: string,
    row: int,
    col: int,
    kind: string,
    target: string,
    action: string,
    message: string,
    sender: string,
    recipient: string)

  /** Go encodes target, action, message, sender and recipient with
      `omitempty`, so an empty one is missing from the JSON the browser parses
      and JavaScript sees `undefined`, which is strictly equal to no string.
      This is `data.field === v` for such a field. */
  predicate OmitEmptyEquals(field: string, v: string)
  {
    field != "" && field == v
  }

  /** The frame the browser sends after an accepted move. */
  function PositionFrame(username: string, row: int, col: int): Message
  {
    Message(username, row, col, "position", "", "", "", "", "")
  }

  /** The frame the chat window sends: it carries type, recipient, message
      and sender, but no username, row or col. */
  function ChatFrame(recipient: string, text: string, sender: string): Message
  {
    Message("", 0, 0, "chat", "", "", text, sender, recipient)
  }

  /** A proximity event as the server builds it. */
  function ProximityFrame(username: string, target: string, action: string): Message
  {
    Message(username, 0, 0, "proximity", target, action, "", "", "")
  }
}
