/** The pure part of the server's proximity engine
    (backend/server/client.go): adjacency, the pair key, the frames one
    visit emits, and the loop invariants of the read loop with their step
    lemmas. */
module Proximity {
  import opened Wire

  datatype Position = Position(row: int, col: int)

  /** `abs` */
  function Abs(x: int): (r: int)
    ensures r >= 0
    ensures r == x || r == -x
  {
    if x < 0 then -x else x
  }

  /** `arePlayersAdjacent`: the Manhattan distance of the two cells is exactly
      one, that is, the second cell is one of the four neighbours of the
      first. */
  function ArePlayersAdjacent(p1Row: int, p1Col: int, p2Row: int, p2Col: int): (b: bool)
    ensures b <==>
      || (p2Row == p1Row - 1 && p2Col == p1Col)
      || (p2Row == p1Row + 1 && p2Col == p1Col)
      || (p2Row == p1Row && p2Col == p1Col - 1)
      || (p2Row == p1Row && p2Col == p1Col + 1)
  {
    Abs(p1Row - p2Row) + Abs(p1Col - p2Col) == 1
  }

  lemma AdjacencySymmetric(p1Row: int, p1Col: int, p2Row: int, p2Col: int)
    ensures ArePlayersAdjacent(p1Row, p1Col, p2Row, p2Col) == ArePlayersAdjacent(p2Row, p2Col, p1Row, p1Col)
  {
  }

  lemma AdjacencyIrreflexive(row: int, col: int)
    ensures !ArePlayersAdjacent(row, col, row, col)
  {
  }

  // ---------------------------------------------------------------------
  // String order and pair keys

  /** Go's `a < b` on strings. Go compares the UTF-8 bytes; on code points
      that is the same order, which is the one used here. */
  function LexLess(a: string, b: string): bool
  {
    if |a| == 0 then |b| > 0
    else if |b| == 0 then false
    else if a[0] != b[0] then a[0] < b[0]
    else LexLess(a[1..], b[1..])
  }

  lemma {:induction false} LexLessIrreflexive(a: string)
    ensures !LexLess(a, a)
  {
    if |a| > 0 {
      LexLessIrreflexive(a[1..]);
    }
  }

  lemma {:induction false} LexLessAsymmetric(a: string, b: string)
    ensures LexLess(a, b) ==> !LexLess(b, a)
  {
    if |a| > 0 && |b| > 0 && a[0] == b[0] {
      LexLessAsymmetric(a[1..], b[1..]);
    }
  }

  lemma {:induction false} LexLessTotal(a: string, b: string)
    ensures a != b ==> LexLess(a, b) || LexLess(b, a)
  {
    if |a| > 0 && |b| > 0 && a[0] == b[0] {
      LexLessTotal(a[1..], b[1..]);
      assert a == [a[0]] + a[1..] && b == [b[0]] + b[1..];
    }
  }

  /** `generatePairKey`, as written: the two names joined by "|", the smaller
      one first. */
  function GeneratePairKey(a: string, b: string): (key: string)
    ensures key == a + "|" + b || key == b + "|" + a
    ensures LexLess(a, b) ==> key == a + "|" + b
    ensures LexLess(b, a) ==> key == b + "|" + a
  {
    LexLessAsymmetric(a, b);
    if LexLess(a, b) then a + "|" + b else b + "|" + a
  }

  /** The key does not depend on the order of the two names. */
  lemma GeneratePairKeySymmetric(a: string, b: string)
    ensures GeneratePairKey(a, b) == GeneratePairKey(b, a)
  {
    LexLessTotal(a, b);
  }

  /** The joined key is not a key of the pair: names may contain "|", and
      then one sender gets the same key with two different players. */
  lemma GeneratePairKeyCollides()
    ensures "b|a" != "a|b"
    ensures GeneratePairKey("a|b|a", "b|a") == GeneratePairKey("a|b|a", "a|b")
  {
    assert ("b|a")[0] != ("a|b")[0];
    assert LexLess("a|b|a", "b|a");
    assert !LexLess("|a", "");
    assert LexLess("a|b", "a|b|a") by {
      assert ("a|b")[1..] == "|b" && ("a|b|a")[1..] == "|b|a";
      assert ("|b")[1..] == "b" && ("|b|a")[1..] == "b|a";
      assert ("b")[1..] == "" && ("b|a")[1..] == "|a";
    }
    assert ("a|b|a" + "|" + "b|a") == ("a|b" + "|" + "a|b|a");
  }

  lemma {:induction false} SplitAtSeparator(x: string, y: string, u: string, v: string)
    requires '|' !in x && '|' !in u
    requires x + "|" + y == u + "|" + v
    ensures x == u && y == v
  {
    var w := x + "|" + y;
    assert w[|x|] == '|' && w[|u|] == '|';
    assert v == w[|u| + 1..] && u == w[..|u|];
    assert y == w[|x| + 1..] && x == w[..|x|];
    if |x| < |u| {
      assert false;
    } else if |u| < |x| {
      assert false;
    }
    assert x == w[..|x|] && y == w[|x| + 1..];
  }

  /** When no name contains the separator, the joined key does identify the
      pair. */
  lemma GeneratePairKeyInjectiveWithoutSeparator(a: string, b: string, c: string, d: string)
    requires '|' !in a && '|' !in b && '|' !in c && '|' !in d
    ensures GeneratePairKey(a, b) == GeneratePairKey(c, d) <==> (a == c && b == d) || (a == d && b == c)
  {
    GeneratePairKeySymmetric(a, b);
    GeneratePairKeySymmetric(c, d);
    var k := GeneratePairKey(a, b);
    if k == GeneratePairKey(c, d) {
      var x, y := if k == a + "|" + b then a else b, if k == a + "|" + b then b else a;
      var u, v := if k == c + "|" + d then c else d, if k == c + "|" + d then d else c;
      assert k == x + "|" + y && k == u + "|" + v;
      SplitAtSeparator(x, y, u, v);
    }
  }

  /** The key of an unordered pair of names: the two names themselves, the
      smaller one first. This is what the pair key is meant to be; the hub
      uses it in place of the joined string. */
  datatype PairKey = PairKey(lo: string, hi: string)

  function PairKeyOf(a: string, b: string): (k: PairKey)
    ensures (k.lo == a && k.hi == b) || (k.lo == b && k.hi == a)
    ensures a != b ==> LexLess(k.lo, k.hi)
  {
    LexLessTotal(a, b);
    if LexLess(a, b) then PairKey(a, b) else PairKey(b, a)
  }

  /** Two pairs of names get the same key exactly when they are the same
      unordered pair. */
  lemma PairKeyOfInjective(a: string, b: string, c: string, d: string)
    ensures PairKeyOf(a, b) == PairKeyOf(c, d) <==> (a == c && b == d) || (a == d && b == c)
  {
    LexLessAsymmetric(a, b);
    LexLessAsymmetric(c, d);
    LexLessIrreflexive(a);
    LexLessIrreflexive(c);
  }

  /** For one sender, different players get different keys. */
  lemma SenderKeysDistinct(s: string, o1: string, o2: string)
    requires o1 != o2
    ensures PairKeyOf(s, o1) != PairKeyOf(s, o2)
  {
    PairKeyOfInjective(s, o1, s, o2);
  }

  /** The keys that join `s` to another player of `names`. */
  ghost function SenderKeys(s: string, names: set<string>): set<PairKey>
  {
    set o | o in names && o != s :: PairKeyOf(s, o)
  }

  // ---------------------------------------------------------------------
  // Outgoing frames

  /** A write on the `broadcast` channel (delivered by `handleMessages` to
      every connected client), or a direct write on one client's socket. */
  datatype Emit = Broadcast(msg: Message) | Direct(to: string, msg: Message)

  /** The copy of a chat frame written to the recipient's socket: its sender
      is the frame's username field. */
  function ChatCopy(msg: Message): Message
  {
    Message("", 0, 0, "chat", "", "", msg.message, msg.username, msg.recipient)
  }

  /** `n` copies of `e`. */
  function Repeat(e: Emit, n: nat): (r: seq<Emit>)
    ensures |r| == n && forall i :: 0 <= i < n ==> r[i] == e
  {
    if n == 0 then [] else Repeat(e, n - 1) + [e]
  }

  /** One direct copy per other player, when the recipient is connected. */
  function ChatCopies(msg: Message, n: nat, clients: set<string>): seq<Emit>
  {
    if msg.recipient in clients then Repeat(Direct(msg.recipient, ChatCopy(msg)), n) else []
  }

  /** The frames the loop emits for sender `s` at `p` and one other player `o`
      at `q`, given the pairs that were adjacent before the frame. */
  function Transition(pairs: set<PairKey>, s: string, p: Position, o: string, q: Position): seq<Emit>
  {
    var adjacentNow := ArePlayersAdjacent(p.row, p.col, q.row, q.col);
    var adjacentBefore := PairKeyOf(s, o) in pairs;
    if adjacentNow && !adjacentBefore then
      [Broadcast(ProximityFrame(s, o, "approach")), Broadcast(ProximityFrame(o, s, "approach"))]
    else if !adjacentNow && adjacentBefore then
      [Broadcast(ProximityFrame(s, o, "leave")), Broadcast(ProximityFrame(o, s, "leave"))]
    else
      []
  }

  /** Only a change of adjacency emits anything: becoming neighbours emits
      the two approach frames, ceasing to be neighbours the two leave
      frames, and no change emits nothing. */
  lemma TransitionOnEdges(pairs: set<PairKey>, s: string, p: Position, o: string, q: Position)
    ensures var now, before := ArePlayersAdjacent(p.row, p.col, q.row, q.col), PairKeyOf(s, o) in pairs;
      var t := Transition(pairs, s, p, o, q);
      && (now && !before <==> t == [Broadcast(ProximityFrame(s, o, "approach")), Broadcast(ProximityFrame(o, s, "approach"))])
      && (!now && before <==> t == [Broadcast(ProximityFrame(s, o, "leave")), Broadcast(ProximityFrame(o, s, "leave"))])
      && (now == before <==> t == [])
  {
  }

  /** The proximity frames of one non-chat frame, visiting the other players
      in `order` (each of which has a position). */
  function ProximityFrames(pairs: set<PairKey>, s: string, p: Position,
                           positions: map<string, Position>, order: seq<string>): seq<Emit>
  {
    if order == [] then []
    else
      var last := order[|order| - 1];
      ProximityFrames(pairs, s, p, positions, order[..|order| - 1])
      + (if last in positions then Transition(pairs, s, p, last, positions[last]) else [])
  }

  /** The frames come in mirrored pairs: `(s -> o)` followed by `(o -> s)`
      with the same action, for a player `o` the loop visited. */
  lemma {:induction false} ProximityFramesMirrored(pairs: set<PairKey>, s: string, p: Position,
                                                   positions: map<string, Position>, order: seq<string>)
    ensures |ProximityFrames(pairs, s, p, positions, order)| % 2 == 0
    ensures forall i :: 0 <= i < |ProximityFrames(pairs, s, p, positions, order)| / 2 ==>
      var f := ProximityFrames(pairs, s, p, positions, order);
      && f[2 * i].Broadcast? && f[2 * i + 1].Broadcast?
      && f[2 * i].msg.username == s && f[2 * i].msg.target in order
      && (f[2 * i].msg.action == "approach" || f[2 * i].msg.action == "leave")
      && f[2 * i].msg == ProximityFrame(s, f[2 * i].msg.target, f[2 * i].msg.action)
      && f[2 * i + 1].msg == ProximityFrame(f[2 * i].msg.target, s, f[2 * i].msg.action)
  {
    if order != [] {
      var init := order[..|order| - 1];
      var last := order[|order| - 1];
      ProximityFramesMirrored(pairs, s, p, positions, init);
      var f0 := ProximityFrames(pairs, s, p, positions, init);
      var t := if last in positions then Transition(pairs, s, p, last, positions[last]) else [];
      var f := f0 + t;
      assert f == ProximityFrames(pairs, s, p, positions, order);
      forall i | 0 <= i < |f| / 2
        ensures f[2 * i].Broadcast? && f[2 * i + 1].Broadcast?
        ensures f[2 * i].msg.username == s && f[2 * i].msg.target in order
        ensures f[2 * i].msg.action == "approach" || f[2 * i].msg.action == "leave"
        ensures f[2 * i].msg == ProximityFrame(s, f[2 * i].msg.target, f[2 * i].msg.action)
        ensures f[2 * i + 1].msg == ProximityFrame(f[2 * i].msg.target, s, f[2 * i].msg.action)
      {
        if 2 * i < |f0| {
          assert f[2 * i] == f0[2 * i] && f[2 * i + 1] == f0[2 * i + 1];
          assert f0[2 * i].msg.target in init;
        } else {
          assert f[2 * i] == t[0] && f[2 * i + 1] == t[1];
        }
      }
    }
  }

  lemma {:induction false} ProximityFramesAppend(pairs: set<PairKey>, s: string, p: Position,
                                                 positions: map<string, Position>, a: seq<string>, b: seq<string>)
    ensures ProximityFrames(pairs, s, p, positions, a + b)
         == ProximityFrames(pairs, s, p, positions, a) + ProximityFrames(pairs, s, p, positions, b)
  {
    if b != [] {
      var b0 := b[..|b| - 1];
      assert (a + b)[..|a + b| - 1] == a + b0;
      assert (a + b)[|a + b| - 1] == b[|b| - 1];
      ProximityFramesAppend(pairs, s, p, positions, a, b0);
    } else {
      assert a + b == a;
    }
  }

  /** Adding the same element to two multisets keeps them apart. */
  lemma MultisetCancel(a: multiset<string>, b: multiset<string>, x: string)
    requires a + multiset{x} == b + multiset{x}
    ensures a == b
  {
    forall y ensures a[y] == b[y] {
      assert (a + multiset{x})[y] == (b + multiset{x})[y];
    }
  }

  /** Takes the last element of `order1` out of both sequences. */
  lemma TakeOutLast(order1: seq<string>, order2: seq<string>)
      returns (init: seq<string>, x: string, u: seq<string>, v: seq<string>)
    requires order1 != [] && multiset(order1) == multiset(order2)
    ensures order1 == init + [x] && order2 == u + [x] + v
    ensures multiset(init) == multiset(u + v)
  {
    x := order1[|order1| - 1];
    init := order1[..|order1| - 1];
    assert order1 == init + [x];
    assert x in multiset(order2);
    var j :| 0 <= j < |order2| && order2[j] == x;
    u, v := order2[..j], order2[j + 1..];
    assert order2 == u + [x] + v;
    assert multiset(order2) == multiset(u + v) + multiset{x} by {
      assert multiset(u + v) == multiset(u) + multiset(v);
    }
    MultisetCancel(multiset(init), multiset(u + v), x);
  }

  /** Go visits the other players in an unspecified order. Whatever the
      order, the same frames are emitted, possibly in another order. */
  lemma {:induction false} ProximityFramesOrderIndependent(pairs: set<PairKey>, s: string, p: Position,
                                                           positions: map<string, Position>,
                                                           order1: seq<string>, order2: seq<string>)
    requires multiset(order1) == multiset(order2)
    ensures multiset(ProximityFrames(pairs, s, p, positions, order1))
         == multiset(ProximityFrames(pairs, s, p, positions, order2))
    decreases |order1|
  {
    if order1 == [] {
      assert |multiset(order2)| == 0;
    } else {
      var init, x, u, v := TakeOutLast(order1, order2);
      ProximityFramesOrderIndependent(pairs, s, p, positions, init, u + v);
      var t := if x in positions then Transition(pairs, s, p, x, positions[x]) else [];
      var fu := ProximityFrames(pairs, s, p, positions, u);
      var fv := ProximityFrames(pairs, s, p, positions, v);
      assert init == order1[..|order1| - 1];
      ProximityFramesAppend(pairs, s, p, positions, u + [x], v);
      ProximityFramesAppend(pairs, s, p, positions, u, [x]);
      assert [x][..0] == [];
      ProximityFramesAppend(pairs, s, p, positions, u, v);
      assert multiset(fu + t + fv) == multiset(fu + fv) + multiset(t);
    }
  }

  predicate NoDuplicates(order: seq<string>)
  {
    forall i, j :: 0 <= i < j < |order| ==> order[i] != order[j]
  }

  /** A sequence without duplicates is as long as the set of its elements. */
  lemma {:induction false} DistinctCount(order: seq<string>, names: set<string>)
    requires NoDuplicates(order)
    requires forall o :: o in order <==> o in names
    ensures |order| == |names|
  {
    if order != [] {
      var last := order[|order| - 1];
      var init := order[..|order| - 1];
      forall o | o in init ensures o in names - {last} {
        var i :| 0 <= i < |init| && init[i] == o;
        assert order[i] == o && order[|order| - 1] == last;
      }
      forall o | o in names - {last} ensures o in init {
        var i :| 0 <= i < |order| && order[i] == o;
        assert i != |order| - 1;
        assert init[i] == o;
      }
      DistinctCount(init, names - {last});
    } else {
      assert names == {};
    }
  }

  /** What a non-chat frame from `s` at `p` does to the adjacent pairs, once
      the players in `names` have been visited: every pair of `s` with one of
      them is adjacent exactly when the two cells are neighbours, and no other
      pair has changed. */
  ghost predicate PairsUpdatedOn(before: set<PairKey>, after: set<PairKey>, s: string, p: Position,
                                 positions: map<string, Position>, names: set<string>)
  {
    && (forall o :: o in names && o in positions && o != s ==>
          (PairKeyOf(s, o) in after <==> ArePlayersAdjacent(p.row, p.col, positions[o].row, positions[o].col)))
    && (forall k :: k !in SenderKeys(s, names) ==> (k in after <==> k in before))
  }

  /** What a whole non-chat frame does: every player has been visited. */
  ghost predicate PairsUpdated(before: set<PairKey>, after: set<PairKey>, s: string, p: Position,
                               positions: map<string, Position>)
  {
    PairsUpdatedOn(before, after, s, p, positions, positions.Keys)
  }

  /** Visiting one more player `other` keeps `PairsUpdatedOn`, and before the
      visit its pair still has the state it had before the frame. */
  lemma PairsStep(before: set<PairKey>, cur: set<PairKey>, next: set<PairKey>, s: string, p: Position,
                  positions: map<string, Position>, seen: set<string>, other: string)
    requires other in positions && other !in seen && other != s
    requires PairsUpdatedOn(before, cur, s, p, positions, seen)
    requires var key := PairKeyOf(s, other);
      next == if ArePlayersAdjacent(p.row, p.col, positions[other].row, positions[other].col)
              then cur + {key} else cur - {key}
    ensures (PairKeyOf(s, other) in cur) == (PairKeyOf(s, other) in before)
    ensures PairsUpdatedOn(before, next, s, p, positions, seen + {other})
  {
    var key := PairKeyOf(s, other);
    forall o | o in seen && o != s
      ensures PairKeyOf(s, o) != key
    {
      SenderKeysDistinct(s, o, other);
    }
    assert key !in SenderKeys(s, seen);
    assert SenderKeys(s, seen + {other}) == SenderKeys(s, seen) + {key};
  }

  /** Every pair joins two different players that have a position. */
  ghost predicate PairsWellFormed(pairs: set<PairKey>, positions: map<string, Position>)
  {
    forall k :: k in pairs ==> k.lo in positions && k.hi in positions && LexLess(k.lo, k.hi)
  }

  /** The part of the loop's progress shared by both kinds of frame: it has
      visited `visited`, and `order` lists the visited players other than the
      sender `s`, each once, in the order they were visited. */
  ghost predicate VisitedOrder(s: string, positions: map<string, Position>,
                               visited: set<string>, order: seq<string>)
  {
    && NoDuplicates(order)
    && (forall o :: o in order <==> o in visited && o != s)
    && (forall o :: o in order ==> o in positions)
  }

  /** Where the loop over the players stands for a chat frame: one copy per
      visited other player has been written, and the pairs are untouched. */
  ghost predicate ChatVisited(msg: Message, positions: map<string, Position>, clients: set<string>,
                              pairs0: set<PairKey>, out0: seq<Emit>, pairs: set<PairKey>, out: seq<Emit>,
                              visited: set<string>, order: seq<string>)
  {
    && VisitedOrder(msg.username, positions, visited, order)
    && pairs == pairs0
    && out == out0 + ChatCopies(msg, |order|, clients)
  }

  /** Where the loop over the players stands for any other frame: the
      proximity frames of the visited players have been emitted, and their
      pairs with the sender have been brought up to date. */
  ghost predicate MoveVisited(msg: Message, positions: map<string, Position>,
                              pairs0: set<PairKey>, out0: seq<Emit>, pairs: set<PairKey>, out: seq<Emit>,
                              visited: set<string>, order: seq<string>)
  {
    var s, p := msg.username, Position(msg.row, msg.col);
    && VisitedOrder(s, positions, visited, order)
    && out == out0 + ProximityFrames(pairs0, s, p, positions, order)
    && PairsUpdatedOn(pairs0, pairs, s, p, positions, visited)
    && PairsWellFormed(pairs, positions)
  }

  /** Skipping the sender's own entry changes nothing but `visited`. */
  lemma ChatVisitedSelf(msg: Message, positions: map<string, Position>, clients: set<string>,
                        pairs0: set<PairKey>, out0: seq<Emit>, pairs: set<PairKey>, out: seq<Emit>,
                        visited: set<string>, order: seq<string>)
    requires ChatVisited(msg, positions, clients, pairs0, out0, pairs, out, visited, order)
    ensures ChatVisited(msg, positions, clients, pairs0, out0, pairs, out, visited + {msg.username}, order)
  {
  }

  lemma MoveVisitedSelf(msg: Message, positions: map<string, Position>,
                        pairs0: set<PairKey>, out0: seq<Emit>, pairs: set<PairKey>, out: seq<Emit>,
                        visited: set<string>, order: seq<string>)
    requires MoveVisited(msg, positions, pairs0, out0, pairs, out, visited, order)
    ensures MoveVisited(msg, positions, pairs0, out0, pairs, out, visited + {msg.username}, order)
  {
    assert SenderKeys(msg.username, visited + {msg.username}) == SenderKeys(msg.username, visited);
  }

  /** One visit of the loop body (`Hub.Visit`) for a chat frame. */
  lemma ChatVisitedStep(msg: Message, positions: map<string, Position>, clients: set<string>,
                        pairs0: set<PairKey>, out0: seq<Emit>, pairs: set<PairKey>, out: seq<Emit>,
                        visited: set<string>, order: seq<string>, other: string, out': seq<Emit>)
    requires ChatVisited(msg, positions, clients, pairs0, out0, pairs, out, visited, order)
    requires other in positions && other !in visited && other != msg.username
    requires out' == out + (if msg.recipient in clients then [Direct(msg.recipient, ChatCopy(msg))] else [])
    ensures ChatVisited(msg, positions, clients, pairs0, out0, pairs, out', visited + {other}, order + [other])
  {
    assert ChatCopies(msg, |order| + 1, clients) == ChatCopies(msg, |order|, clients)
      + (if msg.recipient in clients then [Direct(msg.recipient, ChatCopy(msg))] else []);
    VisitedOrderStep(msg.username, positions, visited, order, other);
  }

  lemma VisitedOrderStep(s: string, positions: map<string, Position>,
                         visited: set<string>, order: seq<string>, other: string)
    requires VisitedOrder(s, positions, visited, order)
    requires other in positions && other !in visited && other != s
    ensures VisitedOrder(s, positions, visited + {other}, order + [other])
  {
    var order' := order + [other];
    forall i, j | 0 <= i < j < |order'| ensures order'[i] != order'[j] {
      if j == |order| {
        assert order[i] in order;
      } else {
        assert order'[i] == order[i] && order'[j] == order[j];
      }
    }
  }

  /** One visit of the loop body (`Hub.Visit`) for any other frame. */
  lemma MoveVisitedStep(msg: Message, positions: map<string, Position>,
                        pairs0: set<PairKey>, out0: seq<Emit>, pairs: set<PairKey>, out: seq<Emit>,
                        visited: set<string>, order: seq<string>,
                        other: string, pairs': set<PairKey>, out': seq<Emit>)
    requires MoveVisited(msg, positions, pairs0, out0, pairs, out, visited, order)
    requires msg.username in positions
    requires other in positions && other !in visited && other != msg.username
    requires var key, pos := PairKeyOf(msg.username, other), positions[other];
      && pairs' == (if ArePlayersAdjacent(msg.row, msg.col, pos.row, pos.col) then pairs + {key} else pairs - {key})
      && out' == out + Transition(pairs, msg.username, Position(msg.row, msg.col), other, pos)
    ensures MoveVisited(msg, positions, pairs0, out0, pairs', out', visited + {other}, order + [other])
  {
    var s, p := msg.username, Position(msg.row, msg.col);
    PairsStep(pairs0, pairs, pairs', s, p, positions, visited, other);
    FramesStep(pairs0, pairs, s, p, positions, order, other, out0, out, out');
    VisitedOrderStep(s, positions, visited, order, other);
    WellFormedStep(pairs, pairs', positions, s, other);
  }

  /** The frames of one more visit extend `ProximityFrames` by one player,
      as long as its pair still has the state it had before the frame. */
  lemma FramesStep(pairs0: set<PairKey>, pairs: set<PairKey>, s: string, p: Position,
                   positions: map<string, Position>, order: seq<string>, other: string,
                   out0: seq<Emit>, out: seq<Emit>, out': seq<Emit>)
    requires other in positions
    requires (PairKeyOf(s, other) in pairs) == (PairKeyOf(s, other) in pairs0)
    requires out == out0 + ProximityFrames(pairs0, s, p, positions, order)
    requires out' == out + Transition(pairs, s, p, other, positions[other])
    ensures out' == out0 + ProximityFrames(pairs0, s, p, positions, order + [other])
  {
    var order' := order + [other];
    assert order'[..|order'| - 1] == order;
    assert Transition(pairs, s, p, other, positions[other]) == Transition(pairs0, s, p, other, positions[other]);
  }

  /** Adding or removing the pair of two different players with positions
      keeps the pairs well formed. */
  lemma WellFormedStep(pairs: set<PairKey>, pairs': set<PairKey>, positions: map<string, Position>,
                       a: string, b: string)
    requires PairsWellFormed(pairs, positions)
    requires a in positions && b in positions && a != b
    requires pairs' == pairs + {PairKeyOf(a, b)} || pairs' == pairs - {PairKeyOf(a, b)}
    ensures PairsWellFormed(pairs', positions)
  {
  }

  /** Taking one name out of the names still to visit moves it to the
      visited ones. */
  lemma VisitOne(names: set<string>, remaining: set<string>, visited: set<string>, other: string)
    requires remaining <= names && visited == names - remaining && other in remaining
    ensures other in names && other !in visited
    ensures remaining - {other} <= names && visited + {other} == names - (remaining - {other})
  {
  }

  /** Before the loop over the players nothing has been visited. */
  lemma ChatVisitedStart(msg: Message, positions: map<string, Position>, clients: set<string>,
                         pairs0: set<PairKey>, out0: seq<Emit>)
    ensures ChatVisited(msg, positions, clients, pairs0, out0, pairs0, out0, {}, [])
  {
  }

  lemma MoveVisitedStart(msg: Message, positions: map<string, Position>,
                         pairs0: set<PairKey>, out0: seq<Emit>)
    requires PairsWellFormed(pairs0, positions)
    ensures MoveVisited(msg, positions, pairs0, out0, pairs0, out0, {}, [])
  {
    assert SenderKeys(msg.username, {}) == {};
  }

  /** Once every player has been visited, `order` lists all other players. */
  lemma VisitedAllCount(s: string, positions: map<string, Position>, order: seq<string>)
    requires VisitedOrder(s, positions, positions.Keys, order)
    ensures forall o :: o in order <==> o in positions && o != s
    ensures |order| == |positions.Keys - {s}|
  {
    DistinctCount(order, positions.Keys - {s});
  }
}
