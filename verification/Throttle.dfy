/** One throttle session and the locos it controls. */
module Throttle {
  import opened Wrappers
  import opened Frames
  import opened Rows

  /** The session's locos, and the rows of the table by address. */
  datatype Session = Session(mine: set<Address>, rows: map<Address, Row>)

  /** What happens under one lock: a step of the session, of a waiting row, or of somebody else.
      An absent address is the wildcard. */
  datatype Ask =
    | BeginAdd(address: Option<Address>)
    | Adopted(reply: Reply, at: Address)
    | GiveUp(loco: Address)
    | Remove(which: Option<Address>)
    | Act(who: Option<Address>, command: Command)
    | Reconnect
    | Foreign(elsewhere: Address, row: Row)

  function RowFor(rows: map<Address, Row>, a: Address): Row {
    if a in rows then rows[a] else NewRow(a)
  }

  function Selected(s: Session, a: Option<Address>): set<Address> {
    if a.None? then s.mine else if a.value in s.mine then {a.value} else {}
  }

  function AllObey(rows: map<Address, Row>, who: set<Address>, c: Command): (r: map<Address, Row>)
    ensures r.Keys == rows.Keys
  {
    map a | a in rows :: if a in who then Obey(rows[a], c) else rows[a]
  }

  function Next(s: Session, ask: Ask): Session {
    match ask
    case BeginAdd(None) => s
    case BeginAdd(Some(a)) =>
      if a in s.mine then s else Session(s.mine + {a}, s.rows[a := Obey(RowFor(s.rows, a), Acquire)])
    case Adopted(reply, a) => s.(rows := AllObey(s.rows, {a}, Adopt(reply)))
    case GiveUp(a) => Session(s.mine - {a}, AllObey(s.rows, {a}, Release))
    case Remove(which) => Session(s.mine - Selected(s, which), AllObey(s.rows, Selected(s, which), Release))
    case Act(who, c) => s.(rows := AllObey(s.rows, Selected(s, who), c))
    case Reconnect => s.(mine := {})
    case Foreign(a, row) => s.(rows := s.rows[a := row])
  }

  function Run(s: Session, asks: seq<Ask>): Session {
    if asks == [] then s else Next(Run(s, asks[..|asks| - 1]), asks[|asks| - 1])
  }

  /** Commands that a throttle can give to a row it controls. */
  predicate IsAction(c: Command) {
    !c.Acquire? && !c.Release?
  }

  /** The session controls the loco exactly when its row is active. */
  predicate Agreed(s: Session, a: Address) {
    a in s.mine <==> a in s.rows && s.rows[a].active
  }

  /** Nobody else touches this row, and the session gives throttle commands only. */
  predicate Proper(ask: Ask, a: Address) {
    match ask
    case Act(_, c) => IsAction(c)
    case Foreign(b, _) => b != a
    case _ => true
  }

  /** Only a new connection that forgets the loco breaks the agreement. */
  lemma StepAgrees(s: Session, ask: Ask, a: Address)
    requires Agreed(s, a) && Proper(ask, a)
    ensures Agreed(Next(s, ask), a) <==> !(ask.Reconnect? && a in s.mine)
  {
  }

  /** Over any run in which no new connection forgets the loco, it is under control exactly when its row is active. */
  lemma {:induction false} ControlMeansActive(s: Session, asks: seq<Ask>, a: Address)
    requires Agreed(s, a)
    requires forall k :: 0 <= k < |asks| ==> Proper(asks[k], a) && !(asks[k].Reconnect? && a in Run(s, asks[..k]).mine)
    ensures Agreed(Run(s, asks), a)
  {
    if asks != [] {
      var before := asks[..|asks| - 1];
      assert forall k :: 0 <= k < |before| ==> before[..k] == asks[..k];
      ControlMeansActive(s, before, a);
      StepAgrees(Run(s, before), asks[|before|], a);
    }
  }

  /** The wildcard releases every loco of the session, once, and no other. */
  lemma WildcardReleasesAll(s: Session, a: Address)
    requires Agreed(s, a) && a in s.rows
    ensures var after := Next(s, Remove(None));
            && after.mine == {}
            && after.rows[a].stops == (if a in s.mine then Increment(s.rows[a].stops) else s.rows[a].stops)
            && !after.rows[a].active
  {
  }

  /** This row was given back: unwanted, and with one more stop asked for. */
  predicate GivenBack(row: Row, row1: Row) {
    row1 == row.(active := false, stops := Increment(row.stops))
  }

  /** Giving back one loco: it leaves the set and its row is released, if the session has it; all else stays. */
  lemma RemovingOne(s: Session, a: Address, b: Address)
    ensures var s1 := Next(s, Remove(Some(a)));
            && s1.mine == s.mine - {a} && s1.rows.Keys == s.rows.Keys
            && (b in s.rows && !(b == a && a in s.mine) ==> s1.rows[b] == s.rows[b])
            && (a in s.rows && a in s.mine ==> GivenBack(s.rows[a], s1.rows[a]))
  {
  }

  /** Giving back all: each loco of the session, and no other. */
  lemma RemovingAll(s: Session, b: Address)
    ensures var s1 := Next(s, Remove(None));
            && s1.mine == {} && s1.rows.Keys == s.rows.Keys
            && (b in s.rows && b in s.mine ==> GivenBack(s.rows[b], s1.rows[b]))
            && (b in s.rows && b !in s.mine ==> s1.rows[b] == s.rows[b])
  {
  }

  /** A command reaches the one loco it names, or with the wildcard every loco, of this session only. */
  lemma CommandReaches(s: Session, who: Option<Address>, c: Command, b: Address)
    ensures var s1 := Next(s, Act(who, c));
            && s1.mine == s.mine && s1.rows.Keys == s.rows.Keys
            && (b in s.rows && b in s.mine && (who == None || who == Some(b)) ==> s1.rows[b] == Obey(s.rows[b], c))
            && (b in s.rows && !(b in s.mine && (who == None || who == Some(b))) ==> s1.rows[b] == s.rows[b])
  {
  }

  /** Taking a loco: refused with the wildcard and for a loco of the session, else its row, new or not, is wanted. */
  lemma AddingOne(s: Session, a: Address, b: Address)
    ensures Next(s, BeginAdd(None)) == s
    ensures a in s.mine ==> Next(s, BeginAdd(Some(a))) == s
    ensures a !in s.mine ==>
              var s1 := Next(s, BeginAdd(Some(a)));
              && s1.mine == s.mine + {a} && s1.rows.Keys == s.rows.Keys + {a}
              && s1.rows[a] == (if a in s.rows then s.rows[a] else NewRow(a)).(active := true)
              && (b in s.rows && b != a ==> s1.rows[b] == s.rows[b])
  {
  }

  // ----- The object -----

  class WifredSession {
    const table: LocoTable
    var myLocos: map<Address, LocoRow>

    ghost function Footprint(): set<object>
      reads this, table
    {
      {this, table} + set r | r in table.growingTable :: r
    }

    ghost predicate Valid()
      reads this, table, table.growingTable, set r | r in table.growingTable :: r.requestedSpeed,
            set r | r in table.growingTable :: r.functions
    {
      && table.Valid()
      && forall a :: a in myLocos ==> a in table.rowByAddress && table.rowByAddress[a] == myLocos[a]
    }

    ghost function RowsNow(): map<Address, Row>
      reads table, table.rowByAddress.Values, set r | r in table.rowByAddress.Values :: r.requestedSpeed,
            set r | r in table.rowByAddress.Values :: r.functions
    {
      map a | a in table.rowByAddress :: table.rowByAddress[a].Abs()
    }

    ghost function Abs(): Session
      reads this, table, table.rowByAddress.Values,
            set r | r in table.rowByAddress.Values :: r.requestedSpeed,
            set r | r in table.rowByAddress.Values :: r.functions
    {
      Session(myLocos.Keys, RowsNow())
    }

    constructor (table: LocoTable)
      requires table.Valid()
      ensures Valid() && this.table == table && myLocos == map[]
    {
      this.table, myLocos := table, map[];
    }

    /** When flag and counter of one row changed, only that row's value did. */
    twostate lemma OneRowChanged(row: LocoRow)
      requires old(table.Valid()) && unchanged(table) && row in table.growingTable && row.Visible()
      requires forall r :: r in table.growingTable && r != row ==> unchanged(r)
      requires forall r :: r in table.growingTable ==> unchanged(old(r.requestedSpeed)) && unchanged(r.functions)
      requires row.requestedSpeed == old(row.requestedSpeed)
      ensures table.Valid() && row.address in table.rowByAddress
      ensures RowsNow() == old(RowsNow())[row.address := row.Abs()]
    {
    }

    lemma RowNow(a: Address)
      requires a in table.rowByAddress
      ensures a in RowsNow() && RowsNow()[a] == table.rowByAddress[a].Abs() && RowsNow().Keys == table.rowByAddress.Keys
    {
    }

    /** Takes a loco under control; refuses the wildcard and a loco that it has already. */
    method MtAdd(address: Option<Address>) returns (ok: bool)
      requires Valid() && (address.Some? ==> address.value.Valid())
      modifies Footprint()
      ensures Valid()
      ensures ok == (address.Some? && address.value !in old(myLocos))
      ensures Abs() == Next(old(Abs()), BeginAdd(address))
    {
      hide LocoTable.Valid, RowsNow, Obey, NewRow;
      ok := address.Some? && address.value !in myLocos;
      if !ok { return; }
      var locoRow := RowForAddress(address.value);
      TakeUnderControl(locoRow);
    }

    /** A row of the table, new if need be. */
    method RowForAddress(a: Address) returns (row: LocoRow)
      requires Valid() && a.Valid()
      modifies table
      ensures Valid() && row in table.growingTable && row.address == a && (row in old(table.growingTable) || fresh(row))
      ensures row.Abs() == RowFor(old(RowsNow()), a) && RowsNow() == old(RowsNow())[a := row.Abs()]
    {
      hide NewRow, LocoRow.Visible, LocoTable.Valid, LocoRow.Abs;
      row := table.GetRowForAddress(a);
      table.RowIsKnown(row);
    }

    method TakeUnderControl(row: LocoRow)
      requires Valid() && row in table.growingTable && row.address !in myLocos
      modifies this, row
      ensures Valid() && unchanged(table)
      ensures Abs() == Session(old(Abs().mine) + {row.address},
                               old(RowsNow())[row.address := Obey(old(row.Abs()), Acquire)])
    {
      hide LocoTable.Valid, RowsNow, Obey, LocoRow.Visible;
      table.RowIsKnown(row);
      myLocos := myLocos[row.address := row];
      row.Activate();
      OneRowChanged(row);
    }

    /** Gives one loco back. */
    method GiveBack(a: Address)
      requires Valid() && a in myLocos
      modifies this, myLocos[a]
      ensures Valid() && unchanged(table)
      ensures Abs() == Session(old(Abs()).mine - {a}, old(RowsNow())[a := Obey(old(myLocos[a].Abs()), Command.Release)])
    {
      hide LocoTable.Valid, RowsNow, Obey, LocoRow.Visible;
      var row := myLocos[a];
      table.AddressIsKnown(a);
      myLocos := myLocos - {a};
      row.Deactivate();
      OneRowChanged(row);
    }

    /** Gives selected locos back. */
    method MtRemove(address: Option<Address>)
      requires Valid()
      modifies Footprint()
      ensures Valid() && unchanged(table)
      ensures Abs() == Next(old(Abs()), Remove(address))
    {
      hide LocoTable.Valid, RowsNow, Obey, AllObey;
      ghost var start := Abs();
      if address.Some? && address.value !in myLocos {
        NobodyObeys(start.rows);
        return;
      }
      var todo := if address.Some? then {address.value} else myLocos.Keys;
      ghost var selected := todo;
      NobodyObeys(start.rows);
      assert selected - todo == {};
      while todo != {}
        invariant Valid() && unchanged(table)
        invariant todo <= selected <= start.mine
        invariant Abs() == Session(start.mine - (selected - todo),
                                   AllObey(start.rows, selected - todo, Command.Release))
      {
        var a :| a in todo;
        ghost var done := selected - todo;
        table.AddressIsKnown(a);
        RowNow(a);
        OneMoreObeys(start.rows, done, a);
        todo := todo - {a};
        assert selected - todo == done + {a} && start.mine - (done + {a}) == start.mine - done - {a};
        GiveBack(a);
      }
      assert selected - todo == selected;
    }
  }

  lemma NobodyObeys(rows: map<Address, Row>)
    ensures AllObey(rows, {}, Command.Release) == rows
  {
  }

  lemma OneMoreObeys(rows: map<Address, Row>, done: set<Address>, a: Address)
    requires a !in done && a in rows
    ensures var before := AllObey(rows, done, Command.Release);
            before[a := Obey(before[a], Command.Release)] == AllObey(rows, done + {a}, Command.Release)
  {
  }
}
