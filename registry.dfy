/** The connection registry: which sockets are admitted, under which identity,
    with case-insensitive uniqueness of names and colors, and the fan-out of a
    message to every other open socket. */
module Registry {
  import opened Wire
  import opened Transport

  /** The identity a participant claims when connecting. */
  datatype User = User(username: string, color: string)

  /** Why a newcomer is turned away: the first clashing entry shares its color,
      or (only otherwise) its name. */
  datatype Clash = ColorTaken | NameTaken

  /** ASCII lowering of one character: capitals become small letters, and
      every other character is kept. */
  function LowerChar(c: char): (r: char)
    ensures !('A' <= r <= 'Z')
    ensures !('A' <= c <= 'Z') ==> r == c
    ensures 'A' <= c <= 'Z' ==> 'a' <= r <= 'z' && r as int - 'a' as int == c as int - 'A' as int
  {
    if 'A' <= c <= 'Z' then (c as int - 'A' as int + 'a' as int) as char else c
  }

  /** String lowering, letter by letter. */
  function Lower(s: string): (t: string)
    ensures |t| == |s|
    ensures forall k :: 0 <= k < |t| ==> !('A' <= t[k] <= 'Z')
    ensures forall k :: 0 <= k < |s| && !('A' <= s[k] <= 'Z') ==> t[k] == s[k]
  {
    seq(|s|, k requires 0 <= k < |s| => LowerChar(s[k]))
  }

  /** Lowering twice is lowering once, so comparing lowered strings is an
      equivalence that ignores case. */
  lemma LowerIdempotent(s: string)
    ensures Lower(Lower(s)) == Lower(s)
  {
  }

  predicate SameColor(a: User, b: User) {
    Lower(a.color) == Lower(b.color)
  }

  predicate SameName(a: User, b: User) {
    Lower(a.username) == Lower(b.username)
  }

  /** How one existing entry `u` clashes with `newcomer`: a color match is
      reported before a name match. */
  function ClashWith(u: User, newcomer: User): (r: Option<Clash>)
    ensures r == Some(ColorTaken) <==> SameColor(u, newcomer)
    ensures r == Some(NameTaken) <==> !SameColor(u, newcomer) && SameName(u, newcomer)
    ensures r.None? <==> !SameColor(u, newcomer) && !SameName(u, newcomer)
  {
    if SameColor(u, newcomer) then Some(ColorTaken)
    else if SameName(u, newcomer) then Some(NameTaken)
    else None
  }

  /** No entry before position `k` clashes with `newcomer` in any way. */
  predicate NoClashBefore(existing: seq<User>, newcomer: User, k: int)
    requires 0 <= k <= |existing|
  {
    forall j :: 0 <= j < k ==> !SameColor(existing[j], newcomer) && !SameName(existing[j], newcomer)
  }

  /** The verdict of the admission scan over the existing identities in
      iteration order: the clash of the first entry that clashes, if any. */
  function FirstClash(existing: seq<User>, newcomer: User): (r: Option<Clash>)
    ensures r.None? <==> NoClashBefore(existing, newcomer, |existing|)
    ensures r.Some? ==>
      exists k :: 0 <= k < |existing| && ClashWith(existing[k], newcomer) == r
                  && NoClashBefore(existing, newcomer, k)
  {
    if existing == [] then None
    else if ClashWith(existing[0], newcomer).Some? then ClashWith(existing[0], newcomer)
    else
      var r := FirstClash(existing[1..], newcomer);
      assert forall k :: 1 <= k < |existing| ==> existing[k] == existing[1..][k - 1];
      if r.Some? then
        var k' :| 0 <= k' < |existing[1..]| && ClashWith(existing[1..][k'], newcomer) == r
                  && NoClashBefore(existing[1..], newcomer, k');
        assert ClashWith(existing[k' + 1], newcomer) == r && NoClashBefore(existing, newcomer, k' + 1);
        r
      else
        r
  }

  /** When position `k` holds the first entry that clashes, the scan reports
      exactly that entry's clash. */
  lemma FirstClashAt(existing: seq<User>, newcomer: User, k: nat)
    requires k < |existing| && ClashWith(existing[k], newcomer).Some?
    requires NoClashBefore(existing, newcomer, k)
    ensures FirstClash(existing, newcomer) == ClashWith(existing[k], newcomer)
  {
    var r := FirstClash(existing, newcomer);
    assert !NoClashBefore(existing, newcomer, |existing|);
    var k' :| 0 <= k' < |existing| && ClashWith(existing[k'], newcomer) == r
              && NoClashBefore(existing, newcomer, k');
    assert k' == k;
  }

  /** The scan turns the newcomer away exactly when some registered identity
      matches it, case-insensitively, on color or on username. */
  lemma RejectedIffSomeMatch(m: map<Socket, User>, order: seq<Socket>, newcomer: User)
    requires forall x :: x in m ==> x in order
    requires forall x :: x in order ==> x in m
    ensures FirstClash(ValuesInOrder(order, m), newcomer).Some? <==>
      exists s :: s in m && (SameColor(m[s], newcomer) || SameName(m[s], newcomer))
  {
    var vs := ValuesInOrder(order, m);
    if FirstClash(vs, newcomer).Some? {
      var k :| 0 <= k < |vs| && ClashWith(vs[k], newcomer) == FirstClash(vs, newcomer)
               && NoClashBefore(vs, newcomer, k);
      assert order[k] in m && m[order[k]] == vs[k];
    } else {
      forall s | s in m ensures !SameColor(m[s], newcomer) && !SameName(m[s], newcomer) {
        var k :| 0 <= k < |order| && order[k] == s;
        assert vs[k] == m[s];
      }
    }
  }

  /** The error frame that tells a newcomer why it was turned away. */
  function RejectionFrame(c: Clash, now: Timestamp): (f: Frame)
    ensures f.Error? && f.timestamp == now
    ensures f.key == MessageKey <==> c == NameTaken
    ensures f.reason == (if c == ColorTaken then ColorTakenText else NameTakenText)
  {
    match c
    case ColorTaken => Error(TextKey, ColorTakenText, now)
    case NameTaken => Error(MessageKey, NameTakenText, now)
  }

  /** Invariant I1: no two registered sockets share a lowered name or a lowered color. */
  predicate Unique(m: map<Socket, User>) {
    forall a, b :: a in m && b in m && a != b ==> !SameName(m[a], m[b]) && !SameColor(m[a], m[b])
  }

  predicate Distinct(order: seq<Socket>) {
    forall i, j :: 0 <= i < j < |order| ==> order[i] != order[j]
  }

  /** The identities of `m`, in the iteration order `order`. */
  function ValuesInOrder(order: seq<Socket>, m: map<Socket, User>): (vs: seq<User>)
    requires forall k :: 0 <= k < |order| ==> order[k] in m
    ensures |vs| == |order|
    ensures forall k :: 0 <= k < |order| ==> vs[k] == m[order[k]]
  {
    seq(|order|, k requires 0 <= k < |order| => m[order[k]])
  }

  /** Admitting a newcomer the scan found no clash for keeps I1, whether the
      socket is new or is re-registered under a new identity. */
  lemma AdmitPreservesUnique(m: map<Socket, User>, order: seq<Socket>, s: Socket, user: User)
    requires Unique(m)
    requires forall x :: x in m ==> x in order
    requires forall x :: x in order ==> x in m
    requires FirstClash(ValuesInOrder(order, m), user).None?
    ensures Unique(m[s := user])
  {
    var vs := ValuesInOrder(order, m);
    forall a | a in m
      ensures !SameName(m[a], user) && !SameColor(m[a], user)
    {
      var k :| 0 <= k < |order| && order[k] == a;
      assert vs[k] == m[a];
    }
  }

  /** `order` with `s` taken out, the others keeping their relative order. */
  function Without(order: seq<Socket>, s: Socket): (r: seq<Socket>)
    ensures forall x :: x in r ==> x in order && x != s
    ensures forall x :: x in order && x != s ==> x in r
    ensures s !in order ==> r == order
    ensures Distinct(order) ==> Distinct(r)
    ensures |r| <= |order|
  {
    if order == [] then []
    else if order[0] == s then Without(order[1..], s)
    else
      var rest := Without(order[1..], s);
      assert Distinct(order) ==> order[0] !in order[1..];
      [order[0]] + rest
  }

  lemma AppendKeepsDistinct(order: seq<Socket>, s: Socket)
    requires Distinct(order) && s !in order
    ensures Distinct(order + [s])
  {
  }

  /** The iteration order lists each entry once, so the map's size is the
      length of its iteration order. */
  lemma {:induction false} SizeIsOrderLength(order: seq<Socket>, m: map<Socket, User>)
    requires Distinct(order)
    requires forall x :: x in m ==> x in order
    requires forall x :: x in order ==> x in m
    ensures |m| == |order|
  {
    if order != [] {
      var last := order[|order| - 1];
      var front := order[..|order| - 1];
      assert order == front + [last];
      assert last !in front;
      forall x | x in front ensures x in m - {last} {
        var k :| 0 <= k < |front| && front[k] == x;
        assert order[k] == x;
      }
      SizeIsOrderLength(front, m - {last});
      assert m.Keys == (m - {last}).Keys + {last};
    }
  }

  /** A new key lands at the end of the iteration order, after every earlier identity. */
  lemma ValuesAfterAppend(order: seq<Socket>, m: map<Socket, User>, s: Socket, user: User)
    requires forall x :: x in order ==> x in m
    requires s !in order
    ensures ValuesInOrder(order + [s], m[s := user]) == ValuesInOrder(order, m) + [user]
  {
    var after := ValuesInOrder(order + [s], m[s := user]);
    forall k | 0 <= k < |order| ensures after[k] == ValuesInOrder(order, m)[k] {
      assert (order + [s])[k] == order[k];
    }
  }

  /** Removing an entry keeps I1. */
  lemma RemovePreservesUnique(m: map<Socket, User>, s: Socket)
    requires Unique(m)
    ensures Unique(m - {s})
  {
  }

  /** The registry of a running server: the JavaScript `Map` from socket to
      identity, split into its entries and its iteration (insertion) order. */
  class WebsocketManager {
    var connections: map<Socket, User>
    var order: seq<Socket>

    ghost predicate Valid()
      reads this
    {
      && Distinct(order)
      && (forall s :: s in connections ==> s in order)
      && (forall s :: s in order ==> s in connections)
      && Unique(connections)
    }

    /** The registered identities, in the order the admission scan visits them. */
    ghost function Values(): seq<User>
      reads this
      requires Valid()
    {
      ValuesInOrder(order, connections)
    }

    constructor ()
      ensures Valid()
      ensures connections == map[] && order == []
    {
      connections := map[];
      order := [];
    }

    /** The admission scan of `addConnections`: visit the registered
        identities in iteration order and stop at the first that shares the
        newcomer's color or, failing that, its name. */
    method FindClash(user: User) returns (clash: Option<Clash>)
      requires Valid()
      ensures clash == FirstClash(Values(), user)
    {
      ghost var vs := Values();
      if |connections| > 0 {
        var i := 0;
        while i < |order|
          invariant 0 <= i <= |order|
          invariant NoClashBefore(vs, user, i)
        {
          assert vs[i] == connections[order[i]];
          var connection := connections[order[i]];
          if Lower(connection.color) == Lower(user.color) {
            FirstClashAt(vs, user, i);
            return Some(ColorTaken);
          } else if Lower(connection.username) == Lower(user.username) {
            FirstClashAt(vs, user, i);
            return Some(NameTaken);
          }
          i := i + 1;
        }
      }
      assert NoClashBefore(vs, user, |vs|);
      return None;
    }

    /** Admission: on the first clash found by the scan, send that clash's
        error and close the socket; otherwise register the socket and
        acknowledge with the registry size, which counts the newcomer. */
    method AddConnections(socket: Socket, user: User, now: Timestamp)
      requires Valid()
      modifies this, socket
      ensures Valid()
      ensures FirstClash(old(Values()), user).Some? ==>
        && connections == old(connections)
        && order == old(order)
        && socket.sent == old(socket.sent) + [RejectionFrame(FirstClash(old(Values()), user).value, now)]
        && socket.readyState == AfterClose(old(socket.readyState))
      ensures FirstClash(old(Values()), user).None? ==>
        && connections == old(connections)[socket := user]
        && order == (if socket in old(connections) then old(order) else old(order) + [socket])
        && socket.sent == old(socket.sent) + [Joined(|connections|, JoinedStatus)]
        && socket.readyState == old(socket.readyState)
      ensures socket !in old(connections) && FirstClash(old(Values()), user).None? ==>
        |connections| == |old(connections)| + 1 && Values() == old(Values()) + [user]
    {
      var clash := FindClash(user);
      if clash.Some? {
        socket.Send(RejectionFrame(clash.value, now));
        socket.Close();
        return;
      }
      AdmitPreservesUnique(connections, order, socket, user);
      if socket !in order {
        AppendKeepsDistinct(order, socket);
        ValuesAfterAppend(order, connections, socket, user);
        order := order + [socket];
      }
      connections := connections[socket := user];
      socket.Send(Joined(|connections|, JoinedStatus));
    }

    /** Deletes the socket's entry; a socket that is not registered is left alone. */
    method RemoveConnection(socket: Socket)
      requires Valid()
      modifies this
      ensures Valid()
      ensures connections == old(connections) - {socket}
      ensures order == Without(old(order), socket)
      ensures |connections| == |old(connections)| - (if socket in old(connections) then 1 else 0)
    {
      RemovePreservesUnique(connections, socket);
      connections := connections - {socket};
      order := Without(order, socket);
      assert socket in old(connections) ==> old(connections).Keys == connections.Keys + {socket};
    }

    /** Sends `message` once to every registered socket that is not `eSocket`
        and is open; the registry and every ready state stay as they were. */
    method Broadcast(message: Json, eSocket: Socket)
      requires Valid()
      modifies connections.Keys
      ensures forall s :: s in connections ==>
        s.sent == old(s.sent) + (if s != eSocket && old(s.readyState) == Open then [Relay(message)] else [])
      ensures forall s :: s in connections ==> s.readyState == old(s.readyState)
      ensures eSocket.sent == old(eSocket.sent)
    {
      var i := 0;
      while i < |order|
        invariant 0 <= i <= |order|
        invariant forall k :: 0 <= k < |order| ==> order[k].readyState == old(order[k].readyState)
        invariant forall k :: 0 <= k < |order| ==>
          order[k].sent == old(order[k].sent)
            + (if k < i && order[k] != eSocket && old(order[k].readyState) == Open then [Relay(message)] else [])
      {
        var socket := order[i];
        if socket != eSocket && socket.readyState == Open {
          socket.Send(Relay(message));
        }
        i := i + 1;
      }
      forall s | s in connections
        ensures s.sent == old(s.sent) + (if s != eSocket && old(s.readyState) == Open then [Relay(message)] else [])
        ensures s.readyState == old(s.readyState)
      {
        var k :| 0 <= k < |order| && order[k] == s;
      }
    }
  }
}
