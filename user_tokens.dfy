/**
 * The `user_tokens` table as a sequence of rows in insertion order, and the
 * three statements the login and logout handlers run against it: two
 * conditional deletes and an insert.
 */
module UserTokens {

  /** How many sessions of a user survive the trim that precedes an insert. */
  const SESSION_LIMIT: nat := 5

  /** A row of `user_tokens`; `expired` is in Unix seconds. */
  datatype TokenRow = TokenRow(id: int, user: int, token: string, expired: int)

  /** The rows owned by `user`, in table order. */
  function OwnedBy(rows: seq<TokenRow>, user: int): (r: seq<TokenRow>)
    ensures forall x :: x in r <==> x in rows && x.user == user
  {
    if rows == [] then []
    else (if rows[0].user == user then [rows[0]] else []) + OwnedBy(rows[1..], user)
  }

  /** The rows owned by anyone but `user`, in table order. */
  function OwnedByOthers(rows: seq<TokenRow>, user: int): (r: seq<TokenRow>)
    ensures forall x :: x in r <==> x in rows && x.user != user
  {
    if rows == [] then []
    else (if rows[0].user != user then [rows[0]] else []) + OwnedByOthers(rows[1..], user)
  }

  /** The number of `user`'s rows whose id is above `id`. */
  function CountNewer(rows: seq<TokenRow>, user: int, id: int): nat {
    if rows == [] then 0
    else (if rows[0].user == user && rows[0].id > id then 1 else 0) + CountNewer(rows[1..], user, id)
  }

  /**
   * The WHERE clauses of the deletes. `NotAmongNewest` reads its subquery
   * (`ORDER BY id DESC LIMIT keep`) from `snapshot`, the table as the
   * statement found it: a row is among the newest `keep` when fewer than
   * `keep` of its owner's rows have a larger id.
   */
  datatype Condition =
    | ExpiredBefore(user: int, now: int)
    | NotAmongNewest(user: int, keep: nat, snapshot: seq<TokenRow>)
    | TokenIs(token: string)

  predicate Matches(c: Condition, x: TokenRow) {
    match c
    case ExpiredBefore(user, now) => x.user == user && x.expired < now
    case NotAmongNewest(user, keep, snapshot) => x.user == user && CountNewer(snapshot, user, x.id) >= keep
    case TokenIs(token) => x.token == token
  }

  /** `DELETE FROM user_tokens WHERE c`: exactly the matching rows go, the rest keep their order. */
  function DeleteWhere(rows: seq<TokenRow>, c: Condition): (r: seq<TokenRow>)
    ensures forall x :: x in r <==> x in rows && !Matches(c, x)
    ensures |r| <= |rows|
  {
    if rows == [] then []
    else (if Matches(c, rows[0]) then [] else [rows[0]]) + DeleteWhere(rows[1..], c)
  }

  /** Ids come from a sequence, so along the table they strictly increase. */
  ghost predicate IdsIncreasing(rows: seq<TokenRow>) {
    forall i, j :: 0 <= i < j < |rows| ==> rows[i].id < rows[j].id
  }

  function Min(a: int, b: int): int {
    if a <= b then a else b
  }

  lemma {:induction false} DeleteKeepsIdsIncreasing(rows: seq<TokenRow>, c: Condition)
    requires IdsIncreasing(rows)
    ensures IdsIncreasing(DeleteWhere(rows, c))
  {
    if rows != [] {
      DeleteKeepsIdsIncreasing(rows[1..], c);
      var tail := DeleteWhere(rows[1..], c);
      forall x | x in tail
        ensures rows[0].id < x.id
      {
        var j :| 0 <= j < |rows[1..]| && rows[1..][j] == x;
        assert rows[j + 1] == x;
      }
    }
  }

  /** A delete that matches no row leaves the table as it was. */
  lemma {:induction false} DeleteNothing(rows: seq<TokenRow>, c: Condition)
    requires forall x :: x in rows ==> !Matches(c, x)
    ensures DeleteWhere(rows, c) == rows
  {
    if rows != [] {
      assert rows[0] in rows;
      forall x | x in rows[1..] ensures !Matches(c, x) {
        assert x in rows;
      }
      DeleteNothing(rows[1..], c);
      assert rows == [rows[0]] + rows[1..];
    }
  }

  /** A delete scoped to one user leaves every other user's rows, in order, as they were. */
  lemma {:induction false} DeleteSparesOthers(rows: seq<TokenRow>, c: Condition)
    requires !c.TokenIs?
    ensures OwnedByOthers(DeleteWhere(rows, c), c.user) == OwnedByOthers(rows, c.user)
  {
    if rows != [] {
      DeleteSparesOthers(rows[1..], c);
      var rest := DeleteWhere(rows[1..], c);
      if Matches(c, rows[0]) {
        assert DeleteWhere(rows, c) == rest;
      } else {
        assert DeleteWhere(rows, c) == [rows[0]] + rest;
        assert ([rows[0]] + rest)[1..] == rest;
      }
    }
  }

  /** When every row of `rows` is newer than `id`, all of `user`'s rows count as newer. */
  lemma {:induction false} CountNewerAll(rows: seq<TokenRow>, user: int, id: int)
    requires forall x :: x in rows ==> x.id > id
    ensures CountNewer(rows, user, id) == |OwnedBy(rows, user)|
  {
    if rows != [] {
      assert rows[0] in rows;
      forall x | x in rows[1..] ensures x.id > id {
        assert x in rows;
      }
      CountNewerAll(rows[1..], user, id);
    }
  }

  /** A row with a larger id never has more newer rows than one with a smaller id. */
  lemma {:induction false} CountNewerAntitone(rows: seq<TokenRow>, user: int, lo: int, hi: int)
    requires lo <= hi
    ensures CountNewer(rows, user, hi) <= CountNewer(rows, user, lo)
  {
    if rows != [] {
      CountNewerAntitone(rows[1..], user, lo, hi);
    }
  }

  /** Two conditions that agree on every row of `rows` delete the same rows. */
  lemma {:induction false} DeleteCongruent(rows: seq<TokenRow>, c1: Condition, c2: Condition)
    requires forall x :: x in rows ==> (Matches(c1, x) <==> Matches(c2, x))
    ensures DeleteWhere(rows, c1) == DeleteWhere(rows, c2)
  {
    if rows != [] {
      assert rows[0] in rows;
      forall x | x in rows[1..] ensures Matches(c1, x) <==> Matches(c2, x) {
        assert x in rows;
      }
      DeleteCongruent(rows[1..], c1, c2);
    }
  }

  /** The tail of an id-ordered table is id-ordered, and every row in it is newer than the head. */
  lemma TailNewer(rows: seq<TokenRow>)
    requires IdsIncreasing(rows) && rows != []
    ensures IdsIncreasing(rows[1..])
    ensures forall x :: x in rows[1..] ==> x.id > rows[0].id
  {
    forall x | x in rows[1..] ensures x.id > rows[0].id {
      var j :| 0 <= j < |rows[1..]| && rows[1..][j] == x;
      assert rows[j + 1] == x;
    }
  }

  /**
   * One step of the trim: the head survives when it belongs to someone else
   * or fewer than `keep` of its owner's rows follow it, and on the tail the
   * subquery over the whole table agrees with the subquery over the tail.
   */
  lemma {:induction false} TrimStep(rows: seq<TokenRow>, user: int, keep: nat)
    requires IdsIncreasing(rows) && rows != []
    ensures DeleteWhere(rows, NotAmongNewest(user, keep, rows))
            == (if rows[0].user == user && |OwnedBy(rows[1..], user)| >= keep then [] else [rows[0]])
               + DeleteWhere(rows[1..], NotAmongNewest(user, keep, rows[1..]))
  {
    var head, tail := rows[0], rows[1..];
    TailNewer(rows);
    forall x | x in tail
      ensures Matches(NotAmongNewest(user, keep, rows), x) <==> Matches(NotAmongNewest(user, keep, tail), x)
    {
      assert CountNewer(rows, user, x.id) == CountNewer(tail, user, x.id);
    }
    DeleteCongruent(tail, NotAmongNewest(user, keep, rows), NotAmongNewest(user, keep, tail));
    CountNewerAll(tail, user, head.id);
    assert CountNewer(rows, user, head.id) == |OwnedBy(tail, user)|;
  }

  /**
   * The trim keeps `keep` rows of the user, or all of them when there are
   * fewer; the subquery reads the table being trimmed.
   */
  lemma {:induction false} TrimCount(rows: seq<TokenRow>, user: int, keep: nat)
    requires IdsIncreasing(rows)
    ensures |OwnedBy(DeleteWhere(rows, NotAmongNewest(user, keep, rows)), user)|
            == Min(|OwnedBy(rows, user)|, keep)
  {
    if rows != [] {
      var head, tail := rows[0], rows[1..];
      TailNewer(rows);
      TrimStep(rows, user, keep);
      TrimCount(tail, user, keep);
      var kept := if head.user == user && |OwnedBy(tail, user)| >= keep then [] else [head];
      OwnedByConcat(kept, DeleteWhere(tail, NotAmongNewest(user, keep, tail)), user);
    }
  }

  lemma {:induction false} OwnedByConcat(a: seq<TokenRow>, b: seq<TokenRow>, user: int)
    ensures OwnedBy(a + b, user) == OwnedBy(a, user) + OwnedBy(b, user)
  {
    if a != [] {
      assert (a + b)[1..] == a[1..] + b;
      OwnedByConcat(a[1..], b, user);
    } else {
      assert a + b == b;
    }
  }

  /** A row of `user` survives the trim only if every newer row of `user` survives too. */
  lemma TrimKeepsNewest(rows: seq<TokenRow>, user: int, keep: nat, older: TokenRow, newer: TokenRow)
    requires older in DeleteWhere(rows, NotAmongNewest(user, keep, rows)) && older.user == user
    requires newer in rows && newer.user == user && newer.id > older.id
    ensures newer in DeleteWhere(rows, NotAmongNewest(user, keep, rows))
  {
    CountNewerAntitone(rows, user, older.id, newer.id);
  }

  /**
   * The login update of the table, in the handler's order: drop `row.user`'s
   * rows that expired before the database clock `dbNow`, trim that user to
   * the `SESSION_LIMIT` highest ids, then append `row`.
   */
  function Issue(rows: seq<TokenRow>, row: TokenRow, dbNow: int): (r: seq<TokenRow>)
    ensures 0 < |r| <= |rows| + 1 && r[|r| - 1] == row
    ensures forall x :: x in r ==> x in rows || x == row
  {
    var live := DeleteWhere(rows, ExpiredBefore(row.user, dbNow));
    DeleteWhere(live, NotAmongNewest(row.user, SESSION_LIMIT, live)) + [row]
  }

  /** After a login the user holds at most one more row than the trim keeps, the new row last. */
  lemma {:induction false} IssueBound(rows: seq<TokenRow>, row: TokenRow, dbNow: int)
    requires IdsIncreasing(rows)
    ensures |OwnedBy(Issue(rows, row, dbNow), row.user)|
            == Min(|OwnedBy(DeleteWhere(rows, ExpiredBefore(row.user, dbNow)), row.user)|, SESSION_LIMIT) + 1
    ensures |OwnedBy(Issue(rows, row, dbNow), row.user)| <= SESSION_LIMIT + 1
  {
    var live := DeleteWhere(rows, ExpiredBefore(row.user, dbNow));
    DeleteKeepsIdsIncreasing(rows, ExpiredBefore(row.user, dbNow));
    TrimCount(live, row.user, SESSION_LIMIT);
    var kept := DeleteWhere(live, NotAmongNewest(row.user, SESSION_LIMIT, live));
    OwnedByConcat(kept, [row], row.user);
    assert OwnedBy([row], row.user) == [row];
  }

  /** A login changes no other user's rows. */
  lemma {:induction false} IssueSparesOthers(rows: seq<TokenRow>, row: TokenRow, dbNow: int)
    ensures OwnedByOthers(Issue(rows, row, dbNow), row.user) == OwnedByOthers(rows, row.user)
  {
    var live := DeleteWhere(rows, ExpiredBefore(row.user, dbNow));
    DeleteSparesOthers(rows, ExpiredBefore(row.user, dbNow));
    var kept := DeleteWhere(live, NotAmongNewest(row.user, SESSION_LIMIT, live));
    DeleteSparesOthers(live, NotAmongNewest(row.user, SESSION_LIMIT, live));
    OthersAppendOwn(kept, row);
  }

  lemma {:induction false} OthersAppendOwn(rows: seq<TokenRow>, row: TokenRow)
    ensures OwnedByOthers(rows + [row], row.user) == OwnedByOthers(rows, row.user)
  {
    if rows != [] {
      assert (rows + [row])[1..] == rows[1..] + [row];
      OthersAppendOwn(rows[1..], row);
    } else {
      assert rows + [row] == [row];
    }
  }

  /**
   * After a login the new row is last, and every other row of the user was
   * already there and had not expired before `dbNow` (the comparison is
   * strict, so a row expiring exactly at `dbNow` is kept by the first delete).
   */
  lemma IssueDropsExpired(rows: seq<TokenRow>, row: TokenRow, dbNow: int)
    ensures Issue(rows, row, dbNow)[|Issue(rows, row, dbNow)| - 1] == row
    ensures forall x :: x in Issue(rows, row, dbNow) && x.user == row.user && x != row ==>
              x in rows && x.expired >= dbNow
  {
  }

  /** With increasing ids and a fresh larger id for the new row, the table stays ordered by id. */
  lemma {:induction false} IssueKeepsIdsIncreasing(rows: seq<TokenRow>, row: TokenRow, dbNow: int)
    requires IdsIncreasing(rows) && forall x :: x in rows ==> x.id < row.id
    ensures IdsIncreasing(Issue(rows, row, dbNow))
  {
    var live := DeleteWhere(rows, ExpiredBefore(row.user, dbNow));
    DeleteKeepsIdsIncreasing(rows, ExpiredBefore(row.user, dbNow));
    var kept := DeleteWhere(live, NotAmongNewest(row.user, SESSION_LIMIT, live));
    DeleteKeepsIdsIncreasing(live, NotAmongNewest(row.user, SESSION_LIMIT, live));
    var all := kept + [row];
    forall i, j | 0 <= i < j < |all| ensures all[i].id < all[j].id {
      if j == |all| - 1 {
        assert all[i] in kept;
      }
    }
  }

  /** Logout: every row carrying the token goes, all other rows stay, and revoking twice is revoking once. */
  lemma {:induction false} RevokeIdempotent(rows: seq<TokenRow>, token: string)
    ensures forall x :: x in DeleteWhere(rows, TokenIs(token)) ==> x.token != token
    ensures DeleteWhere(DeleteWhere(rows, TokenIs(token)), TokenIs(token)) == DeleteWhere(rows, TokenIs(token))
  {
    DeleteNothing(DeleteWhere(rows, TokenIs(token)), TokenIs(token));
  }
}
