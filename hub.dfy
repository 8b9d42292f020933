/** The shared state of the server (backend/server/client.go): the tables
    of connected clients, player positions and adjacent pairs, and what one
    received frame or one disconnect does to them and to the outgoing
    frames. */
module Hub {
  import opened Wire
  import opened Proximity

  class Hub {
    /** The connected usernames (the keys of `clients`). */
    var clients: set<string>
    var playerPositions: map<string, Position>
    /** The Go map only ever holds `true`, so it is the set of its keys. */
    var adjacentPairs: set<PairKey>
    /** Everything written to `broadcast` or to a socket so far. */
    var out: seq<Emit>

    /** Every adjacent pair joins two different players that have a
        position. */
    ghost predicate Valid()
      reads this
    {
      PairsWellFormed(adjacentPairs, playerPositions)
    }

    /** Where the loop over the players of `msg` stands, started from the
        pairs `pairs0` and the output `out0`. */
    ghost predicate Progress(msg: Message, pairs0: set<PairKey>, out0: seq<Emit>,
                             visited: set<string>, order: seq<string>)
      reads this
    {
      if msg.kind == "chat" then
        ChatVisited(msg, playerPositions, clients, pairs0, out0, adjacentPairs, out, visited, order)
      else
        MoveVisited(msg, playerPositions, pairs0, out0, adjacentPairs, out, visited, order)
    }

    constructor ()
      ensures Valid()
      ensures clients == {} && playerPositions == map[] && adjacentPairs == {} && out == []
    {
      clients := {};
      playerPositions := map[];
      adjacentPairs := {};
      out := [];
    }

    /** The start of `handleConnections`: a request without a username is
        refused, otherwise the connection is registered under it. */
    method Connect(username: string) returns (accepted: bool)
      requires Valid()
      modifies this
      ensures Valid()
      ensures accepted <==> username != ""
      ensures clients == if accepted then old(clients) + {username} else old(clients)
      ensures playerPositions == old(playerPositions) && adjacentPairs == old(adjacentPairs)
      ensures out == old(out)
    {
      accepted := username != "";
      if accepted {
        clients := clients + {username};
      }
    }

    /** The body of the loop over `playerPositions` for one entry `other`:
        the sender's own entry is skipped; otherwise a chat frame is copied to
        its recipient, and any other frame updates the pair of the sender and
        `other` and emits the matching proximity frames. */
    method Visit(msg: Message, other: string,
                 ghost pairs0: set<PairKey>, ghost out0: seq<Emit>, ghost visited: set<string>, ghost order: seq<string>)
      returns (ghost order': seq<string>)
      requires other in playerPositions && other !in visited
      requires msg.username in playerPositions
      requires Progress(msg, pairs0, out0, visited, order)
      modifies this`adjacentPairs, this`out
      ensures order' == if other == msg.username then order else order + [other]
      ensures Progress(msg, pairs0, out0, visited + {other}, order')
      ensures other == msg.username ==> adjacentPairs == old(adjacentPairs) && out == old(out)
      ensures other != msg.username && msg.kind == "chat" ==>
        && adjacentPairs == old(adjacentPairs)
        && out == old(out) + (if msg.recipient in clients then [Direct(msg.recipient, ChatCopy(msg))] else [])
      ensures other != msg.username && msg.kind != "chat" ==>
        var key := PairKeyOf(msg.username, other);
        var pos := playerPositions[other];
        && adjacentPairs == (if ArePlayersAdjacent(msg.row, msg.col, pos.row, pos.col)
                             then old(adjacentPairs) + {key} else old(adjacentPairs) - {key})
        && out == old(out) + Transition(old(adjacentPairs), msg.username, Position(msg.row, msg.col), other, pos)
    {
      ghost var pairs1, out1 := adjacentPairs, out;
      if other == msg.username {
        if msg.kind == "chat" {
          ChatVisitedSelf(msg, playerPositions, clients, pairs0, out0, pairs1, out1, visited, order);
        } else {
          MoveVisitedSelf(msg, playerPositions, pairs0, out0, pairs1, out1, visited, order);
        }
        order' := order;
        return;
      }
      order' := order + [other];
      if msg.kind == "chat" {
        if msg.recipient in clients {
          out := out + [Direct(msg.recipient, ChatCopy(msg))];
        }
        ChatVisitedStep(msg, playerPositions, clients, pairs0, out0, pairs1, out1, visited, order, other, out);
        return;
      }
      var key := PairKeyOf(msg.username, other);
      var pos := playerPositions[other];
      var adjacentNow := ArePlayersAdjacent(msg.row, msg.col, pos.row, pos.col);
      var adjacentBefore := key in adjacentPairs;
      if adjacentNow && !adjacentBefore {
        adjacentPairs := adjacentPairs + {key};
        out := out + [Broadcast(ProximityFrame(msg.username, other, "approach")),
                      Broadcast(ProximityFrame(other, msg.username, "approach"))];
      } else if !adjacentNow && adjacentBefore {
        adjacentPairs := adjacentPairs - {key};
        out := out + [Broadcast(ProximityFrame(msg.username, other, "leave")),
                      Broadcast(ProximityFrame(other, msg.username, "leave"))];
      }
      MoveVisitedStep(msg, playerPositions, pairs0, out0, pairs1, out1, visited, order, other, adjacentPairs, out);
    }

    /** The loop over `playerPositions` of one frame, after the sender's
        position has been recorded. `order` is the order in which it visited
        the other players. */
    method VisitPlayers(msg: Message) returns (ghost order: seq<string>)
      requires msg.username in playerPositions
      requires PairsWellFormed(adjacentPairs, playerPositions)
      modifies this`adjacentPairs, this`out
      ensures msg.kind == "chat" ==>
        ChatVisited(msg, playerPositions, clients, old(adjacentPairs), old(out), adjacentPairs, out,
                    playerPositions.Keys, order)
      ensures msg.kind != "chat" ==>
        MoveVisited(msg, playerPositions, old(adjacentPairs), old(out), adjacentPairs, out,
                    playerPositions.Keys, order)
    {
      ghost var pairs0, out0 := adjacentPairs, out;
      var remaining := playerPositions.Keys;
      ghost var visited: set<string> := {};
      order := [];
      if msg.kind == "chat" {
        ChatVisitedStart(msg, playerPositions, clients, pairs0, out0);
      } else {
        MoveVisitedStart(msg, playerPositions, pairs0, out0);
      }
      while remaining != {}
        invariant remaining <= playerPositions.Keys && visited == playerPositions.Keys - remaining
        invariant Progress(msg, pairs0, out0, visited, order)
        decreases remaining
      {
        var other :| other in remaining;
        VisitOne(playerPositions.Keys, remaining, visited, other);
        remaining := remaining - {other};
        order := Visit(msg, other, pairs0, out0, visited, order);
        visited := visited + {other};
      }
    }

    /** One iteration of the read loop of `handleConnections` for a frame
        that was read: the sender's position is overwritten with the frame's
        row and col (whatever its type), every other player is visited, and
        the frame itself is broadcast. */
    method Receive(msg: Message) returns (ghost order: seq<string>)
      requires Valid()
      modifies this
      ensures Valid()
      ensures clients == old(clients)
      ensures playerPositions == old(playerPositions)[msg.username := Position(msg.row, msg.col)]
      ensures NoDuplicates(order)
      ensures forall o :: o in order <==> o in playerPositions && o != msg.username
      ensures |order| == |playerPositions.Keys - {msg.username}|
      ensures msg.kind == "chat" ==>
        && adjacentPairs == old(adjacentPairs)
        && out == old(out) + ChatCopies(msg, |order|, clients) + [Broadcast(msg)]
      ensures msg.kind != "chat" ==>
        && PairsUpdated(old(adjacentPairs), adjacentPairs, msg.username, Position(msg.row, msg.col), playerPositions)
        && out == old(out)
                  + ProximityFrames(old(adjacentPairs), msg.username, Position(msg.row, msg.col), playerPositions, order)
                  + [Broadcast(msg)]
    {
      playerPositions := playerPositions[msg.username := Position(msg.row, msg.col)];
      order := VisitPlayers(msg);
      VisitedAllCount(msg.username, playerPositions, order);
      out := out + [Broadcast(msg)];
    }

    /** The read error branch of `handleConnections`: the user is dropped from
        the clients and the positions, and every pair joining it to a player
        that still has a position is forgotten. */
    method Disconnect(username: string)
      requires Valid()
      modifies this
      ensures Valid()
      ensures clients == old(clients) - {username}
      ensures playerPositions == old(playerPositions) - {username}
      ensures adjacentPairs == old(adjacentPairs) - SenderKeys(username, playerPositions.Keys)
      ensures forall k :: k in adjacentPairs ==> k.lo != username && k.hi != username
      ensures out == old(out)
    {
      clients := clients - {username};
      playerPositions := playerPositions - {username};
      var remaining := playerPositions.Keys;
      ghost var visited: set<string> := {};
      while remaining != {}
        invariant remaining + visited == playerPositions.Keys && remaining !! visited
        invariant adjacentPairs == old(adjacentPairs) - SenderKeys(username, visited)
        invariant clients == old(clients) - {username}
        invariant playerPositions == old(playerPositions) - {username}
        invariant out == old(out)
        decreases remaining
      {
        var other :| other in remaining;
        VisitOne(playerPositions.Keys, remaining, visited, other);
        remaining := remaining - {other};
        assert SenderKeys(username, visited + {other}) == SenderKeys(username, visited) + {PairKeyOf(username, other)};
        visited := visited + {other};
        adjacentPairs := adjacentPairs - {PairKeyOf(username, other)};
      }
      forall k | k in old(adjacentPairs) && (k.lo == username || k.hi == username)
        ensures k in SenderKeys(username, playerPositions.Keys)
      {
        LexLessIrreflexive(k.lo);
        LexLessAsymmetric(k.lo, k.hi);
        var o := if k.lo == username then k.hi else k.lo;
        assert PairKeyOf(username, o) == k;
      }
    }
  }
}
