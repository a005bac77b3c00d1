/** Lifting a BattlEye ban. The server removes bans by row number, every removal renumbers the rows after it, and only
    `writeBans` makes the list outlive a restart.
  */
module BattleyeBans {
  import opened Strings
  import opened BattleyeSession

  datatype Row = Row(target: Text, minutes: Text, reason: Text)

  datatype Kind = Guid | Ip

  /** A row of a `bans` reply as the client reads it. The two lists are numbered separately. */
  datatype Ban = Ban(kind: Kind, index: nat, target: Text)

  // ---- the server -----------------------------------------------------------------------------

  function RemoveAt(rows: seq<Row>, index: nat): seq<Row> {
    if index < |rows| then rows[..index] + rows[index + 1..] else rows
  }

  function Numbered(kind: Kind, rows: seq<Row>): seq<Ban> {
    seq(|rows|, i requires 0 <= i < |rows| => Ban(kind, i, rows[i].target))
  }

  class Server {
    var guidBans: seq<Row>
    var ipBans: seq<Row>
    var savedGuidBans: seq<Row>

    constructor (guidBans: seq<Row>, ipBans: seq<Row>)
      ensures this.guidBans == guidBans && this.ipBans == ipBans && savedGuidBans == guidBans
    {
      this.guidBans, this.ipBans, this.savedGuidBans := guidBans, ipBans, guidBans;
    }

    function Bans(): seq<Ban>
      reads this
    {
      Numbered(Guid, guidBans) + Numbered(Ip, ipBans)
    }

    method RemoveBan(index: nat)
      modifies this`guidBans
      ensures guidBans == RemoveAt(old(guidBans), index)
    {
      if index < |guidBans| {
        guidBans := guidBans[..index] + guidBans[index + 1..];
      }
    }

    method WriteBans()
      modifies this`savedGuidBans
      ensures savedGuidBans == guidBans
    {
      savedGuidBans := guidBans;
    }

    method Restart()
      modifies this`guidBans
      ensures guidBans == savedGuidBans
    {
      guidBans := savedGuidBans;
    }
  }

  // ---- the client -----------------------------------------------------------------------------

  predicate Matches(ban: Ban, wanted: Text) {
    ban.kind.Guid? && Lower(ban.target) == wanted
  }

  /** The row numbers of the matching bans, as listed. */
  function MatchingRows(bans: seq<Ban>, wanted: Text): seq<nat> {
    if bans == [] then []
    else (if Matches(bans[0], wanted) then [bans[0].index] else []) + MatchingRows(bans[1..], wanted)
  }

  function InsertDescending(x: nat, xs: seq<nat>): seq<nat> {
    if xs == [] || x >= xs[0] then [x] + xs else [xs[0]] + InsertDescending(x, xs[1..])
  }

  /** `sorted(…, reverse=True)`. */
  function SortDescending(xs: seq<nat>): seq<nat> {
    if xs == [] then [] else InsertDescending(xs[0], SortDescending(xs[1..]))
  }

  function RemoveAll(rows: seq<Row>, order: seq<nat>): seq<Row>
    decreases |order|
  {
    if order == [] then rows else RemoveAll(RemoveAt(rows, order[0]), order[1..])
  }

  /** `remove_ban`. */
  method RemoveBan(server: Server, guid: Text) returns (gone: bool)
    modifies server
    ensures var wanted := Lower(Strip(guid));
            && (wanted == [] ==>
                  !gone && server.guidBans == old(server.guidBans) && server.savedGuidBans == old(server.savedGuidBans))
            && (wanted != [] ==>
                  && gone
                  && server.guidBans == Without(old(server.guidBans), wanted)
                  && server.savedGuidBans ==
                       (if server.guidBans == old(server.guidBans) then old(server.savedGuidBans) else server.guidBans))
    ensures server.ipBans == old(server.ipBans)
  {
    var wanted := Lower(Strip(guid));
    if wanted == [] {
      return false;
    }
    var before := server.guidBans;
    var matches := MatchingRows(server.Bans(), wanted);
    MatchingIsPositions(before, server.ipBans, wanted);
    if matches == [] {
      PositionsNone(before, wanted);
      return true;
    }
    var order := SortDescending(matches);
    for i := 0 to |order|
      invariant RemoveAll(server.guidBans, order[i..]) == RemoveAll(before, order)
      invariant server.ipBans == old(server.ipBans) && server.savedGuidBans == old(server.savedGuidBans)
    {
      assert order[i..][1..] == order[i + 1..];
      server.RemoveBan(order[i]);
    }
    HighestFirst(before, wanted);
    WithoutShorter(before, wanted);
    server.WriteBans();
    var still := MatchingRows(server.Bans(), wanted);
    MatchingIsPositions(server.guidBans, server.ipBans, wanted);
    WithoutHasNone(before, wanted);
    return still == [];
  }

  /** Whether a restart brings a lifted ban back. It does not when the id had a row on the list in memory, for then the
      list was saved without it; when it had none, "gone" was answered without saving, and a row on the saved list comes
      back. */
  method LiftThenRestart(server: Server, guid: Text) returns (gone: bool)
    modifies server
    ensures var wanted := Lower(Strip(guid));
            var listed := Positions(old(server.guidBans), wanted, 0);
            var saved := Positions(old(server.savedGuidBans), wanted, 0);
            wanted != [] ==>
              && gone
              && (Positions(server.guidBans, wanted, 0) == [] <==> listed != [] || saved == [])
              && server.guidBans ==
                   (if listed != [] then Without(old(server.guidBans), wanted) else old(server.savedGuidBans))
  {
    gone := RemoveBan(server, guid);
    server.Restart();
    var wanted := Lower(Strip(guid));
    PositionsNone(old(server.guidBans), wanted);
    WithoutHasNone(old(server.guidBans), wanted);
  }

  // ---- why that is right ----------------------------------------------------------------------

  /** The list without the rows for an id: what lifting its ban should leave. */
  function Without(rows: seq<Row>, wanted: Text): seq<Row> {
    if rows == [] then []
    else (if Lower(rows[0].target) == wanted then [] else [rows[0]]) + Without(rows[1..], wanted)
  }

  /** Where the rows for an id are, counting from `from`. */
  function Positions(rows: seq<Row>, wanted: Text, from: nat): seq<nat> {
    if rows == [] then []
    else (if Lower(rows[0].target) == wanted then [from] else []) + Positions(rows[1..], wanted, from + 1)
  }

  lemma {:induction false} GuidPositions(rows: seq<Row>, all: seq<Row>, wanted: Text, from: nat, rest: seq<Ban>)
    requires from <= |all| && rows == all[from..]
    requires forall b | b in rest :: b.kind.Ip?
    ensures MatchingRows(Numbered(Guid, all)[from..] + rest, wanted) == Positions(rows, wanted, from)
    decreases |rows|
  {
    var listed := Numbered(Guid, all)[from..];
    if rows == [] {
      assert listed + rest == rest;
      NoneAmongIps(rest, wanted);
    } else {
      assert (listed + rest)[0] == Ban(Guid, from, rows[0].target);
      assert (listed + rest)[1..] == Numbered(Guid, all)[from + 1..] + rest;
      GuidPositions(rows[1..], all, wanted, from + 1, rest);
    }
  }

  lemma {:induction false} NoneAmongIps(bans: seq<Ban>, wanted: Text)
    requires forall b | b in bans :: b.kind.Ip?
    ensures MatchingRows(bans, wanted) == []
  {
    if bans != [] {
      NoneAmongIps(bans[1..], wanted);
    }
  }

  /** What the client finds in a reply is where the id's rows are on the GUID list, whatever the IP list holds. */
  lemma MatchingIsPositions(guids: seq<Row>, ips: seq<Row>, wanted: Text)
    ensures MatchingRows(Numbered(Guid, guids) + Numbered(Ip, ips), wanted) == Positions(guids, wanted, 0)
  {
    assert Numbered(Guid, guids)[0..] == Numbered(Guid, guids);
    GuidPositions(guids, guids, wanted, 0, Numbered(Ip, ips));
  }

  lemma {:induction false} PositionsAscend(rows: seq<Row>, wanted: Text, from: nat)
    ensures forall i | i in Positions(rows, wanted, from) :: from <= i < from + |rows|
    ensures SortDescending(Positions(rows, wanted, from)) == Reversed(Positions(rows, wanted, from))
  {
    if rows != [] {
      PositionsAscend(rows[1..], wanted, from + 1);
      var rest := Positions(rows[1..], wanted, from + 1);
      if Lower(rows[0].target) == wanted {
        var all := [from] + rest;
        assert all[1..] == rest;
        ReversedElements(rest);
        InsertLast(from, Reversed(rest));
      } else {
        assert [] + rest == rest;
      }
    }
  }

  function Reversed(xs: seq<nat>): seq<nat> {
    if xs == [] then [] else Reversed(xs[1..]) + [xs[0]]
  }

  lemma ReversedStep(xs: seq<nat>)
    ensures Reversed(xs) == if xs == [] then [] else Reversed(xs[1..]) + [xs[0]]
  {
  }

  lemma {:induction false} ReversedElements(xs: seq<nat>)
    ensures forall x :: x in Reversed(xs) <==> x in xs
  {
    if xs != [] {
      ReversedElements(xs[1..]);
      assert xs == [xs[0]] + xs[1..];
    }
  }

  lemma {:induction false} InsertLast(x: nat, xs: seq<nat>)
    requires forall y | y in xs :: x < y
    ensures InsertDescending(x, xs) == xs + [x]
  {
    if xs != [] {
      assert xs[0] in xs;
      assert forall y | y in xs[1..] :: y in xs;
      InsertLast(x, xs[1..]);
    }
  }

  lemma {:induction false} RemoveAllAppend(rows: seq<Row>, first: seq<nat>, second: seq<nat>)
    ensures RemoveAll(rows, first + second) == RemoveAll(RemoveAll(rows, first), second)
    decreases |first|
  {
    if first == [] {
      assert first + second == second;
    } else {
      assert (first + second)[1..] == first[1..] + second;
      RemoveAllAppend(RemoveAt(rows, first[0]), first[1..], second);
    }
  }

  lemma DropOne(ahead: seq<Row>, row: Row, behind: seq<Row>)
    ensures RemoveAll(ahead + [row] + behind, [|ahead|]) == ahead + behind
  {
    var rows := ahead + [row] + behind;
    assert RemoveAll(rows, [|ahead|]) == RemoveAll(RemoveAt(rows, |ahead|), []);
    assert RemoveAt(rows, |ahead|) == ahead + behind;
  }

  /** Removing the rows for an id from the end backwards, with other rows ahead of them. */
  lemma {:induction false} RemoveBackwards(ahead: seq<Row>, rows: seq<Row>, wanted: Text)
    ensures RemoveAll(ahead + rows, Reversed(Positions(rows, wanted, |ahead|))) == ahead + Without(rows, wanted)
    decreases |rows|
  {
    hide RemoveAll, RemoveAt, Reversed, Lower;
    ReversedStep([]);
    if rows == [] {
      RemoveNone(ahead + rows);
    } else {
      var rest, left := Positions(rows[1..], wanted, |ahead| + 1), Without(rows[1..], wanted);
      RemoveBackwards(ahead + [rows[0]], rows[1..], wanted);
      assert ahead + rows == ahead + [rows[0]] + rows[1..];
      if Lower(rows[0].target) == wanted {
        ReversedStep([|ahead|] + rest);
        assert ([|ahead|] + rest)[1..] == rest;
        RemoveAllAppend(ahead + rows, Reversed(rest), [|ahead|]);
        DropOne(ahead, rows[0], left);
        assert [] + left == left;
      } else {
        assert [] + rest == rest;
        assert ahead + [rows[0]] + left == ahead + ([rows[0]] + left);
      }
    }
  }

  lemma RemoveNone(rows: seq<Row>)
    ensures RemoveAll(rows, []) == rows
  {
  }

  /** Highest row first, the removals leave exactly the rows that are not the id's, in their order. */
  lemma HighestFirst(rows: seq<Row>, wanted: Text)
    ensures RemoveAll(rows, SortDescending(Positions(rows, wanted, 0))) == Without(rows, wanted)
  {
    PositionsAscend(rows, wanted, 0);
    RemoveBackwards([], rows, wanted);
    assert [] + rows == rows && [] + Without(rows, wanted) == Without(rows, wanted);
  }

  /** Lowest row first, a list with the id twice and then a stranger keeps the id and loses the stranger. */
  lemma LowestFirstLiftsAStranger(a: Row, b: Row, stranger: Row, wanted: Text)
    requires Lower(a.target) == Lower(b.target) == wanted != Lower(stranger.target)
    ensures Positions([a, b, stranger], wanted, 0) == [0, 1]
    ensures RemoveAll([a, b, stranger], [0, 1]) == [b]
  {
    var rows := [a, b, stranger];
    assert rows[1..] == [b, stranger] && [b, stranger][1..] == [stranger] && [stranger][1..] == [];
    assert Positions([stranger], wanted, 2) == [] + Positions([], wanted, 3);
    assert Positions([b, stranger], wanted, 1) == [1] + Positions([stranger], wanted, 2);
    assert RemoveAt(rows, 0) == [b, stranger] && RemoveAt([b, stranger], 1) == [b];
    assert [0, 1][1..] == [1] && [1][1..] == [];
    assert RemoveAll([b, stranger], [1]) == RemoveAll([b], []);
  }

  lemma {:induction false} PositionsNone(rows: seq<Row>, wanted: Text)
    ensures forall from :: Positions(rows, wanted, from) == [] <==> Without(rows, wanted) == rows
  {
    if rows != [] {
      PositionsNone(rows[1..], wanted);
      WithoutShorter(rows[1..], wanted);
    }
  }

  lemma {:induction false} WithoutShorter(rows: seq<Row>, wanted: Text)
    ensures |Without(rows, wanted)| <= |rows|
    ensures |Without(rows, wanted)| + |Positions(rows, wanted, 0)| == |rows|
  {
    if rows != [] {
      WithoutShorter(rows[1..], wanted);
      PositionsShift(rows[1..], wanted, 0, 1);
    }
  }

  lemma {:induction false} PositionsShift(rows: seq<Row>, wanted: Text, from: nat, other: nat)
    ensures |Positions(rows, wanted, from)| == |Positions(rows, wanted, other)|
  {
    if rows != [] {
      PositionsShift(rows[1..], wanted, from + 1, other + 1);
    }
  }

  lemma {:induction false} WithoutHasNone(rows: seq<Row>, wanted: Text)
    ensures forall from :: Positions(Without(rows, wanted), wanted, from) == []
  {
    if rows != [] {
      WithoutHasNone(rows[1..], wanted);
      if Lower(rows[0].target) != wanted {
        assert ([rows[0]] + Without(rows[1..], wanted))[1..] == Without(rows[1..], wanted);
      } else {
        assert [] + Without(rows[1..], wanted) == Without(rows[1..], wanted);
      }
    }
  }
}
