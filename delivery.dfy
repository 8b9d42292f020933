/** How a chat line typed in one browser reaches the other, following the
    frame through the chat window, the server loop and the peer's chat
    window. */
module Delivery {
  import opened Wire
  import Proximity
  import Hub
  import RetroChat

  /** The frame the window sends carries no username, so the direct copy the
      server writes to the recipient has an empty sender (omitted from the
      JSON) and no chat window keeps it. */
  lemma DirectCopyNeverShown(recipient: string, text: string, sender: string, boundTo: string)
    ensures var copy := Proximity.ChatCopy(ChatFrame(recipient, text, sender));
      copy.sender == "" && !RetroChat.Accepts(copy, boundTo)
  {
  }

  /** The original frame is broadcast after the loop to every connected
      client; a window keeps it exactly when it is bound to the sender (and
      the sender name is not empty). */
  lemma BroadcastShownIffBoundToSender(recipient: string, text: string, sender: string, boundTo: string)
    ensures RetroChat.Accepts(ChatFrame(recipient, text, sender), boundTo) <==> sender != "" && sender == boundTo
  {
  }

  /** Every frame the server emits for a chat frame from the window: the
      direct copies (dropped by every window) and the broadcast original. A
      window bound to the sender lists the text exactly once per broadcast,
      whatever the number of players. */
  lemma ChatEmitsShownOnce(recipient: string, text: string, sender: string, n: nat,
                           clients: set<string>, boundTo: string)
    requires sender != "" && sender == boundTo
    ensures var msg := ChatFrame(recipient, text, sender);
      var emitted := Proximity.ChatCopies(msg, n, clients) + [Proximity.Broadcast(msg)];
      && (forall i :: 0 <= i < |emitted| - 1 ==> !RetroChat.Accepts(emitted[i].msg, boundTo))
      && RetroChat.Accepts(emitted[|emitted| - 1].msg, boundTo)
  {
    var msg := ChatFrame(recipient, text, sender);
    var copies := Proximity.ChatCopies(msg, n, clients);
    forall i | 0 <= i < |copies| ensures copies[i].msg == Proximity.ChatCopy(msg) {
    }
    var emitted := copies + [Proximity.Broadcast(msg)];
    forall i | 0 <= i < |emitted| - 1 ensures !RetroChat.Accepts(emitted[i].msg, boundTo) {
      assert emitted[i] == copies[i];
    }
  }

  /** A chat line from the window reaching the server: its frame has no
      username, so the position the server records for the empty username
      becomes (0, 0), whatever that entry held before, and every other
      player keeps its position. */
  method ReceiveWindowChat(hub: Hub.Hub, recipient: string, text: string, sender: string)
    returns (ghost order: seq<string>)
    requires hub.Valid()
    modifies hub
    ensures hub.Valid()
    ensures "" in hub.playerPositions && hub.playerPositions[""] == Proximity.Position(0, 0)
    ensures forall u :: u in old(hub.playerPositions) && u != "" ==>
      u in hub.playerPositions && hub.playerPositions[u] == old(hub.playerPositions)[u]
    ensures hub.playerPositions.Keys == old(hub.playerPositions).Keys + {""}
    ensures hub.adjacentPairs == old(hub.adjacentPairs)
  {
    order := hub.Receive(ChatFrame(recipient, text, sender));
  }
}
