/**
 * The `users` table and the three queries the bot runs on it: the
 * case-insensitive lookup before an insert (`update_user`), the month/day
 * query (`get_birthday_users`) and the listing ordered by `created_at`.
 */
module Users {
  import opened Wrappers
  import opened Dates
  import opened Names

  /** A row of `users`; `createdAt` is a clock reading, `id` the autoincrement key. */
  datatype User = User(id: nat, createdAt: int, name: string, birthdate: Date)

  /** No two stored names are the same up to case. */
  ghost predicate NamesDistinct(rs: seq<User>) {
    forall i, j :: 0 <= i < j < |rs| ==> !SameName(rs[i].name, rs[j].name)
  }

  /** Some stored name equals `name` up to case. */
  predicate NameTaken(rs: seq<User>, name: string) {
    exists i :: 0 <= i < |rs| && SameName(rs[i].name, name)
  }

  /** Every stored birthdate is on or before `today`. */
  ghost predicate NoneAfter(rs: seq<User>, today: Date) {
    forall i :: 0 <= i < |rs| ==> !Before(today, rs[i].birthdate)
  }

  /** The invariant that no birthdate lies in the future survives the passing of time. */
  lemma NoneAfterLater(rs: seq<User>, today: Date, later: Date)
    requires NoneAfter(rs, today) && !Before(later, today)
    ensures NoneAfter(rs, later)
  {
  }

  predicate SameMonthDay(d: Date, month: int, day: int) {
    d.month == month && d.day == day
  }

  /** The names, in table order, of the rows whose birthdate falls on `month`/`day` in any year. */
  function BirthdayNames(rs: seq<User>, month: int, day: int): (names: seq<string>)
    ensures |names| <= |rs|
  {
    if rs == [] then []
    else
      var last := rs[|rs| - 1];
      BirthdayNames(rs[..|rs| - 1], month, day) + (if SameMonthDay(last.birthdate, month, day) then [last.name] else [])
  }

  /** The month/day query returns exactly the names of the matching rows. */
  lemma {:induction false} BirthdayNamesExact(rs: seq<User>, month: int, day: int, name: string)
    ensures name in BirthdayNames(rs, month, day) <==>
            exists i :: 0 <= i < |rs| && rs[i].name == name && SameMonthDay(rs[i].birthdate, month, day)
  {
    if rs != [] {
      var init := rs[..|rs| - 1];
      BirthdayNamesExact(init, month, day, name);
      assert forall i :: 0 <= i < |init| ==> init[i] == rs[i];
      if name in BirthdayNames(init, month, day) {
        var i :| 0 <= i < |init| && init[i].name == name && SameMonthDay(init[i].birthdate, month, day);
        assert rs[i] == init[i];
      }
    }
  }

  /**
   * Register, then query the new row's month and day: with names distinct up to
   * case, the new name is answered exactly once.
   */
  lemma {:induction false} RegisteredAnsweredOnce(rs: seq<User>, u: User)
    requires NamesDistinct(rs + [u])
    ensures multiset(BirthdayNames(rs + [u], u.birthdate.month, u.birthdate.day))[u.name] == 1
  {
    var m, d := u.birthdate.month, u.birthdate.day;
    var all := rs + [u];
    assert all[..|all| - 1] == rs;
    forall i | 0 <= i < |rs| ensures rs[i].name != u.name {
      assert all[i] == rs[i] && all[|rs|] == u;
    }
    BirthdayNamesExact(rs, m, d, u.name);
    assert multiset(BirthdayNames(rs, m, d))[u.name] == 0;
  }

  // ---------------------------------------------------------------------------
  // order_by(created_at)

  predicate SortedByCreation(rs: seq<User>) {
    forall i, j :: 0 <= i < j < |rs| ==> rs[i].createdAt <= rs[j].createdAt
  }

  /** Places `u` after every row created no later than it. */
  function InsertByCreation(u: User, rs: seq<User>): (r: seq<User>)
    ensures multiset(r) == multiset(rs) + multiset{u}
    ensures forall k :: 0 <= k < |r| ==> r[k] == u || r[k] in rs
    ensures SortedByCreation(rs) ==> SortedByCreation(r)
  {
    if rs == [] then [u]
    else if u.createdAt < rs[0].createdAt then [u] + rs
    else
      var rest := InsertByCreation(u, rs[1..]);
      assert rs == [rs[0]] + rs[1..];
      InsertedAfterFirst(rs[0], rest, u, rs[1..]);
      [rs[0]] + rest
  }

  lemma InsertedAfterFirst(first: User, rest: seq<User>, u: User, tail: seq<User>)
    requires first.createdAt <= u.createdAt
    requires forall k :: 0 <= k < |rest| ==> rest[k] == u || rest[k] in tail
    requires SortedByCreation([first] + tail) && SortedByCreation(tail) ==> SortedByCreation(rest)
    ensures SortedByCreation([first] + tail) ==> SortedByCreation([first] + rest)
  {
    if SortedByCreation([first] + tail) {
      assert forall x :: x in tail ==> first.createdAt <= x.createdAt by {
        forall x | x in tail ensures first.createdAt <= x.createdAt {
          var j :| 0 <= j < |tail| && tail[j] == x;
          assert ([first] + tail)[0] == first && ([first] + tail)[j + 1] == x;
        }
      }
      assert SortedByCreation(tail) by {
        forall i, j | 0 <= i < j < |tail| ensures tail[i].createdAt <= tail[j].createdAt {
          assert ([first] + tail)[i + 1] == tail[i] && ([first] + tail)[j + 1] == tail[j];
        }
      }
    }
  }

  // ---------------------------------------------------------------------------
  // The store

  class UserStore {
    var records: seq<User>
    var nextId: nat

    /** Names are distinct up to case; ids grow with the position and stay below `nextId`. */
    ghost predicate Valid()
      reads this
    {
      && NamesDistinct(records)
      && nextId >= 1
      && (forall i :: 0 <= i < |records| ==> 1 <= records[i].id < nextId)
      && (forall i, j :: 0 <= i < j < |records| ==> records[i].id < records[j].id)
    }

    constructor ()
      ensures Valid() && records == [] && nextId == 1
    {
      records := [];
      nextId := 1;
    }

    /** `select(UserModel).where(UserModel.name.ilike(name)).first()`: the first row with that name up to case. */
    method FindByName(name: string) returns (found: Option<nat>)
      ensures found.None? <==> !NameTaken(records, name)
      ensures found.Some? ==> found.value < |records| && SameName(records[found.value].name, name)
      ensures found.Some? ==> forall j :: 0 <= j < found.value ==> !SameName(records[j].name, name)
    {
      var i := 0;
      while i < |records|
        invariant 0 <= i <= |records|
        invariant forall j :: 0 <= j < i ==> !SameName(records[j].name, name)
      {
        if SameName(records[i].name, name) {
          return Some(i);
        }
        i := i + 1;
      }
      return None;
    }

    /**
     * `update_user`: fails with the given name when it is taken up to case and
     * leaves the table as it was; otherwise appends exactly one row and returns its id.
     */
    method Register(name: string, birthdate: Date, createdAt: int) returns (result: Result<nat, string>)
      requires Valid()
      modifies this
      ensures Valid()
      ensures NameTaken(old(records), name) ==>
                result == Failure(name) && records == old(records) && nextId == old(nextId)
      ensures !NameTaken(old(records), name) ==>
                && result == Success(old(nextId))
                && records == old(records) + [User(old(nextId), createdAt, name, birthdate)]
                && nextId == old(nextId) + 1
    {
      var found := FindByName(name);
      if found.Some? {
        return Failure(name);
      }
      var u := User(nextId, createdAt, name, birthdate);
      records := records + [u];
      nextId := nextId + 1;
      result := Success(u.id);
    }

    /** `get_birthday_users`: the names of the rows born on the month and day of `date`, in any year. */
    method BirthdayUsers(date: Date) returns (names: seq<string>)
      ensures names == BirthdayNames(records, date.month, date.day)
    {
      names := [];
      var i := 0;
      while i < |records|
        invariant 0 <= i <= |records|
        invariant names == BirthdayNames(records[..i], date.month, date.day)
      {
        assert records[..i + 1][..i] == records[..i];
        if SameMonthDay(records[i].birthdate, date.month, date.day) {
          names := names + [records[i].name];
        }
        i := i + 1;
      }
      assert records[..i] == records;
    }

    /** The `/people` listing: every row once, in non-decreasing `createdAt` order; ties in no promised order. */
    method Listing() returns (rows: seq<User>)
      ensures SortedByCreation(rows) && multiset(rows) == multiset(records)
    {
      rows := [];
      var i := 0;
      while i < |records|
        invariant 0 <= i <= |records|
        invariant SortedByCreation(rows) && multiset(rows) == multiset(records[..i])
      {
        assert records[..i + 1] == records[..i] + [records[i]];
        rows := InsertByCreation(records[i], rows);
        i := i + 1;
      }
      assert records[..i] == records;
    }
  }
}
