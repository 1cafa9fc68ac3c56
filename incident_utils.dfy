/** The failed-login incident report (src/utils/incidentUtils.js): join each attempt
    record to its user, group per user counting records, order by that count
    (highest first) and split the rows by user type. */
module IncidentUtils {
  import opened Base
  import opened Query
  import opened Schema
  import opened Store

  /** One `$group` row: the user's fields and how many attempt records point at it. */
  datatype IncidentRow = IncidentRow(userId: Oid, nombre: string, email: string, tipoUsuario: Role, numeroIntentos: nat)

  datatype IncidentReport = IncidentReport(clientes: seq<IncidentRow>, administradores: seq<IncidentRow>)

  // ---------------------------------------------------------------------------
  // $lookup + $unwind

  /** The attempt records that point at `id`, counted as stored. */
  function AttemptRecords(attempts: seq<FailedAttempt>, id: Oid): nat {
    if |attempts| == 0 then 0
    else AttemptRecords(attempts[..|attempts| - 1], id) + (if attempts[|attempts| - 1].userId == id then 1 else 0)
  }

  /** `$lookup` on `users._id` followed by `$unwind`: each attempt becomes the user it
      points at (ids are unique), and an attempt without a user disappears. */
  function Joined(attempts: seq<FailedAttempt>, users: seq<User>): (r: seq<User>)
    ensures |r| <= |attempts|
    ensures forall k :: 0 <= k < |r| ==> r[k] in users
  {
    if |attempts| == 0 then []
    else
      var rest := Joined(attempts[..|attempts| - 1], users);
      match UserById(users, attempts[|attempts| - 1].userId)
      case None => rest
      case Some(i) => rest + [users[i]]
  }

  /** Each document is the user the store finds for its id. */
  predicate FoundInStore(joined: seq<User>, users: seq<User>) {
    forall k :: 0 <= k < |joined| ==> UserById(users, joined[k].id).Some? && users[UserById(users, joined[k].id).value] == joined[k]
  }

  /** Each joined document is the user the store finds for its id. */
  lemma {:induction false} JoinedAreFound(attempts: seq<FailedAttempt>, users: seq<User>)
    ensures FoundInStore(Joined(attempts, users), users)
  {
    if |attempts| > 0 {
      var prefix := attempts[..|attempts| - 1];
      JoinedAreFound(prefix, users);
      var rest := Joined(prefix, users);
      var r := Joined(attempts, users);
      match UserById(users, attempts[|attempts| - 1].userId)
      case None =>
        assert r == rest;
      case Some(i) =>
        assert r == rest + [users[i]];
        assert forall k :: 0 <= k < |rest| ==> r[k] == rest[k];
        assert UserById(users, users[i].id) == Some(i);
    }
  }

  /** How many joined documents belong to user `id`. */
  function Occurrences(joined: seq<User>, id: Oid): nat {
    if |joined| == 0 then 0
    else Occurrences(joined[..|joined| - 1], id) + (if joined[|joined| - 1].id == id then 1 else 0)
  }

  /** The join keeps exactly the attempts of users that exist. */
  lemma {:induction false} JoinedOccurrences(attempts: seq<FailedAttempt>, users: seq<User>, id: Oid)
    ensures Occurrences(Joined(attempts, users), id) == if UserById(users, id).Some? then AttemptRecords(attempts, id) else 0
  {
    if |attempts| > 0 {
      var prefix := attempts[..|attempts| - 1];
      var last := attempts[|attempts| - 1];
      JoinedOccurrences(prefix, users, id);
      var rest := Joined(prefix, users);
      match UserById(users, last.userId)
      case None =>
        assert last.userId != id || UserById(users, id).None?;
      case Some(i) =>
        var r := rest + [users[i]];
        assert r[..|r| - 1] == rest;
        assert users[i].id == last.userId;
    }
  }

  // ---------------------------------------------------------------------------
  // $group

  function RowOf(rows: seq<IncidentRow>, id: Oid): Option<nat> {
    FindFirst(rows, (row: IncidentRow) => row.userId == id)
  }

  /** Feeding one joined document into the group stage. */
  function AddToGroups(rows: seq<IncidentRow>, u: User): seq<IncidentRow> {
    match RowOf(rows, u.id)
    case None => rows + [IncidentRow(u.id, u.nombre, u.email, u.tipoUsuario, 1)]
    case Some(k) => rows[k := rows[k].(numeroIntentos := rows[k].numeroIntentos + 1)]
  }

  /** The row carries the user's id, name, e-mail and type (the `$first` fields). */
  predicate RowFor(row: IncidentRow, u: User) {
    row.userId == u.id && row.nombre == u.nombre && row.email == u.email && row.tipoUsuario == u.tipoUsuario
  }

  /** The row takes its fields from one of the joined documents. */
  predicate RowFrom(row: IncidentRow, joined: seq<User>) {
    exists j :: 0 <= j < |joined| && RowFor(row, joined[j])
  }

  predicate DistinctIds(rows: seq<IncidentRow>) {
    forall i, j :: 0 <= i < j < |rows| ==> rows[i].userId != rows[j].userId
  }

  /** `$group` by user id with `numero_intentos: { $sum: 1 }`, rows in order of first
      appearance: one row per user, counting that user's documents. */
  function Group(joined: seq<User>): (r: seq<IncidentRow>)
    ensures DistinctIds(r)
    ensures forall id :: RowOf(r, id).None? ==> Occurrences(joined, id) == 0
    ensures forall id :: RowOf(r, id).Some? ==> r[RowOf(r, id).value].numeroIntentos == Occurrences(joined, id)
    ensures forall k :: 0 <= k < |r| ==> r[k].numeroIntentos >= 1
    ensures forall k :: 0 <= k < |r| ==> RowFrom(r[k], joined)
  {
    if |joined| == 0 then []
    else
      var rows := Group(joined[..|joined| - 1]);
      GroupStep(rows, joined[..|joined| - 1], joined[|joined| - 1]);
      GroupStepOrigin(rows, joined[..|joined| - 1], joined[|joined| - 1]);
      assert joined[..|joined| - 1] + [joined[|joined| - 1]] == joined;
      AddToGroups(rows, joined[|joined| - 1])
  }

  /** One step of the group stage keeps the group invariant. */
  lemma GroupStep(rows: seq<IncidentRow>, prefix: seq<User>, u: User)
    requires DistinctIds(rows)
    requires forall id :: RowOf(rows, id).None? ==> Occurrences(prefix, id) == 0
    requires forall id :: RowOf(rows, id).Some? ==> rows[RowOf(rows, id).value].numeroIntentos == Occurrences(prefix, id)
    requires forall k :: 0 <= k < |rows| ==> rows[k].numeroIntentos >= 1
    ensures var r := AddToGroups(rows, u);
      DistinctIds(r)
      && (forall id :: RowOf(r, id).None? ==> Occurrences(prefix + [u], id) == 0)
      && (forall id :: RowOf(r, id).Some? ==> r[RowOf(r, id).value].numeroIntentos == Occurrences(prefix + [u], id))
      && (forall k :: 0 <= k < |r| ==> r[k].numeroIntentos >= 1)
  {
    var s := prefix + [u];
    assert s[..|s| - 1] == prefix;
    var r := AddToGroups(rows, u);
    assert forall k :: 0 <= k < |rows| ==> r[k].userId == rows[k].userId;
    forall id
      ensures RowOf(r, id).None? ==> Occurrences(s, id) == 0
      ensures RowOf(r, id).Some? ==> r[RowOf(r, id).value].numeroIntentos == Occurrences(s, id)
    {
      if id != u.id {
        GroupStepOther(rows, u, id);
      } else {
        GroupStepOwn(rows, u);
      }
    }
  }

  /** After one step of the group stage every row still takes its fields from a document fed in. */
  lemma GroupStepOrigin(rows: seq<IncidentRow>, prefix: seq<User>, u: User)
    requires forall k :: 0 <= k < |rows| ==> RowFrom(rows[k], prefix)
    ensures forall k :: 0 <= k < |AddToGroups(rows, u)| ==> RowFrom(AddToGroups(rows, u)[k], prefix + [u])
  {
    var s := prefix + [u];
    var r := AddToGroups(rows, u);
    forall k | 0 <= k < |r|
      ensures RowFrom(r[k], s)
    {
      if k < |rows| {
        var j :| 0 <= j < |prefix| && RowFor(rows[k], prefix[j]);
        assert s[j] == prefix[j];
        assert RowFor(r[k], s[j]);
      } else {
        assert RowFor(r[k], s[|prefix|]);
      }
    }
  }

  /** Adding a document of one user leaves the row of every other user where it was. */
  lemma GroupStepOther(rows: seq<IncidentRow>, u: User, id: Oid)
    requires id != u.id
    ensures RowOf(AddToGroups(rows, u), id) == RowOf(rows, id)
    ensures RowOf(rows, id).Some? ==> AddToGroups(rows, u)[RowOf(rows, id).value] == rows[RowOf(rows, id).value]
  {
    var r := AddToGroups(rows, u);
    assert forall k :: 0 <= k < |rows| ==> r[k].userId == rows[k].userId;
    assert forall k :: 0 <= k < |rows| && rows[k].userId == id ==> r[k] == rows[k];
  }

  /** Adding a document of a user gives that user a row counting one more. */
  lemma GroupStepOwn(rows: seq<IncidentRow>, u: User)
    ensures RowOf(AddToGroups(rows, u), u.id).Some?
    ensures var r := AddToGroups(rows, u);
      r[RowOf(r, u.id).value].numeroIntentos
        == (if RowOf(rows, u.id).None? then 1 else rows[RowOf(rows, u.id).value].numeroIntentos + 1)
  {
    var r := AddToGroups(rows, u);
    match RowOf(rows, u.id)
    case None =>
      assert forall j :: 0 <= j < |rows| ==> r[j] == rows[j];
      assert r[|rows|].userId == u.id;
      assert RowOf(r, u.id) == Some(|rows|);
    case Some(k) =>
      assert forall j :: 0 <= j < |rows| ==> r[j].userId == rows[j].userId;
      assert RowOf(r, u.id) == Some(k);
  }

  /** Each row counts its own user's documents. */
  lemma GroupRowCounts(joined: seq<User>, k: nat)
    requires k < |Group(joined)|
    ensures Group(joined)[k].numeroIntentos == Occurrences(joined, Group(joined)[k].userId)
  {
    var r := Group(joined);
    assert RowOf(r, r[k].userId) == Some(k);
  }

  // ---------------------------------------------------------------------------
  // $sort: { numero_intentos: -1 }

  predicate SortedDesc(rows: seq<IncidentRow>) {
    forall i, j :: 0 <= i < j < |rows| ==> rows[i].numeroIntentos >= rows[j].numeroIntentos
  }

  /** Insert `x` after every leading row with at least as many attempts. */
  function Insert(x: IncidentRow, s: seq<IncidentRow>): (r: seq<IncidentRow>)
    ensures multiset(r) == multiset(s) + multiset{x}
    ensures |r| == |s| + 1
    decreases |s|
  {
    if |s| == 0 then [x]
    else if s[0].numeroIntentos >= x.numeroIntentos then
      assert s == [s[0]] + s[1..];
      [s[0]] + Insert(x, s[1..])
    else [x] + s
  }

  /** Inserting into a descending list keeps it descending; the new head is `x` or the old one. */
  lemma {:induction false} InsertSorted(x: IncidentRow, s: seq<IncidentRow>)
    requires SortedDesc(s)
    ensures SortedDesc(Insert(x, s))
    ensures Insert(x, s)[0] == x || (|s| > 0 && Insert(x, s)[0] == s[0])
    decreases |s|
  {
    if |s| > 0 {
      if s[0].numeroIntentos >= x.numeroIntentos {
        SortedTail(s);
        InsertSorted(x, s[1..]);
        var rest := Insert(x, s[1..]);
        assert rest[0].numeroIntentos <= s[0].numeroIntentos;
        ConsSorted(s[0], rest);
      } else {
        ConsSorted(x, s);
      }
    }
  }

  /** The `$sort` stage, as an insertion sort on the count, highest first. */
  function SortByAttempts(s: seq<IncidentRow>): (r: seq<IncidentRow>)
    ensures SortedDesc(r)
    ensures multiset(r) == multiset(s)
  {
    if |s| == 0 then []
    else
      assert s == s[..|s| - 1] + [s[|s| - 1]];
      InsertSorted(s[|s| - 1], SortByAttempts(s[..|s| - 1]));
      Insert(s[|s| - 1], SortByAttempts(s[..|s| - 1]))
  }

  // ---------------------------------------------------------------------------
  // The split by user type

  function Clientes(rows: seq<IncidentRow>): seq<IncidentRow> {
    Filter(rows, (row: IncidentRow) => row.tipoUsuario == Cliente)
  }

  function Administradores(rows: seq<IncidentRow>): seq<IncidentRow> {
    Filter(rows, (row: IncidentRow) => row.tipoUsuario == Administrador)
  }

  /** Filtering rows that are all at or below a bound keeps them at or below it. */
  lemma {:induction false} FilterBelow(s: seq<IncidentRow>, p: IncidentRow -> bool, bound: nat)
    requires forall k :: 0 <= k < |s| ==> s[k].numeroIntentos <= bound
    ensures forall i :: 0 <= i < |Filter(s, p)| ==> Filter(s, p)[i].numeroIntentos <= bound
    decreases |s|
  {
    if |s| > 0 {
      FilterBelow(s[1..], p, bound);
    }
  }

  /** Dropping the first row keeps the order. */
  lemma SortedTail(s: seq<IncidentRow>)
    requires SortedDesc(s) && |s| > 0
    ensures SortedDesc(s[1..])
  {
    forall i, j | 0 <= i < j < |s| - 1
      ensures s[1..][i].numeroIntentos >= s[1..][j].numeroIntentos
    {
      assert s[1..][i] == s[i + 1] && s[1..][j] == s[j + 1];
    }
  }

  /** A row with at least as many attempts as every row of a sorted list may go in front. */
  lemma ConsSorted(x: IncidentRow, rest: seq<IncidentRow>)
    requires SortedDesc(rest)
    requires forall k :: 0 <= k < |rest| ==> rest[k].numeroIntentos <= x.numeroIntentos
    ensures SortedDesc([x] + rest)
  {
    var r := [x] + rest;
    forall i, j | 0 <= i < j < |r|
      ensures r[i].numeroIntentos >= r[j].numeroIntentos
    {
      assert r[j] == rest[j - 1];
      if i > 0 {
        assert r[i] == rest[i - 1];
      }
    }
  }

  /** Filtering keeps the descending order. */
  lemma {:induction false} FilterSorted(s: seq<IncidentRow>, p: IncidentRow -> bool)
    requires SortedDesc(s)
    ensures SortedDesc(Filter(s, p))
    decreases |s|
  {
    if |s| > 0 {
      var tail := s[1..];
      FilterSorted(tail, p);
      FilterBelow(tail, p, s[0].numeroIntentos);
      if p(s[0]) {
        ConsSorted(s[0], Filter(tail, p));
      }
    }
  }

  /** `getFailedAttemptsData`. */
  function GetFailedAttemptsData(attempts: seq<FailedAttempt>, users: seq<User>): (r: IncidentReport)
    ensures SortedDesc(r.clientes) && SortedDesc(r.administradores)
    ensures forall k :: 0 <= k < |r.clientes| ==> r.clientes[k].tipoUsuario == Cliente
    ensures forall k :: 0 <= k < |r.administradores| ==> r.administradores[k].tipoUsuario == Administrador
    ensures forall i, j :: 0 <= i < |r.clientes| && 0 <= j < |r.administradores| ==> r.clientes[i] != r.administradores[j]
  {
    var ranked := SortByAttempts(Group(Joined(attempts, users)));
    FilterSorted(ranked, (row: IncidentRow) => row.tipoUsuario == Cliente);
    FilterSorted(ranked, (row: IncidentRow) => row.tipoUsuario == Administrador);
    IncidentReport(Clientes(ranked), Administradores(ranked))
  }

  /** Every ranked row lands in exactly the list of its user type. */
  lemma SplitIsExact(ranked: seq<IncidentRow>, k: nat)
    requires k < |ranked|
    ensures ranked[k] in Clientes(ranked) <==> ranked[k].tipoUsuario == Cliente
    ensures ranked[k] in Administradores(ranked) <==> ranked[k].tipoUsuario == Administrador
  {
    var c := Clientes(ranked);
    var a := Administradores(ranked);
    if ranked[k] in c {
      var i :| 0 <= i < |c| && c[i] == ranked[k];
    }
    if ranked[k] in a {
      var i :| 0 <= i < |a| && a[i] == ranked[k];
    }
  }

  /** A reported row belongs to an existing user and counts that user's attempt
      records (not the sum of their stored `numero_intentos`). */
  lemma ReportedCountsAreRecords(attempts: seq<FailedAttempt>, users: seq<User>, row: IncidentRow)
    requires row in GetFailedAttemptsData(attempts, users).clientes || row in GetFailedAttemptsData(attempts, users).administradores
    ensures UserById(users, row.userId).Some?
    ensures row.numeroIntentos == AttemptRecords(attempts, row.userId) && row.numeroIntentos >= 1
  {
    var joined := Joined(attempts, users);
    var grouped := Group(joined);
    ReportedRowIsRanked(SortByAttempts(grouped), row);
    assert row in multiset(grouped);
    var k :| 0 <= k < |grouped| && grouped[k] == row;
    GroupRowCounts(joined, k);
    JoinedOccurrences(attempts, users, row.userId);
  }

  /** A row of either list is a ranked row. */
  lemma ReportedRowIsRanked(ranked: seq<IncidentRow>, row: IncidentRow)
    requires row in Clientes(ranked) || row in Administradores(ranked)
    ensures row in ranked
  {
    var c := Clientes(ranked);
    var a := Administradores(ranked);
    if row in c {
      var i :| 0 <= i < |c| && c[i] == row;
    } else {
      var i :| 0 <= i < |a| && a[i] == row;
    }
  }

  /** The row the report should hold for the user with id `id`: the `$first` fields of
      that user and the number of attempt records pointing at it. */
  function ExpectedRow(attempts: seq<FailedAttempt>, users: seq<User>, id: Oid): IncidentRow
    requires UserById(users, id).Some?
  {
    var u := users[UserById(users, id).value];
    IncidentRow(u.id, u.nombre, u.email, u.tipoUsuario, AttemptRecords(attempts, id))
  }

  /** Every existing user with an attempt record is listed, with its own fields, its
      record count, in the list for its type. */
  lemma ReportIsComplete(attempts: seq<FailedAttempt>, users: seq<User>, id: Oid)
    requires UserById(users, id).Some? && AttemptRecords(attempts, id) >= 1
    ensures var row := ExpectedRow(attempts, users, id);
      var report := GetFailedAttemptsData(attempts, users);
      (row.tipoUsuario == Cliente ==> row in report.clientes)
      && (row.tipoUsuario == Administrador ==> row in report.administradores)
  {
    var row := ExpectedRow(attempts, users, id);
    var grouped := Group(Joined(attempts, users));
    GroupedRowIsExpected(attempts, users, id);
    var ranked := SortByAttempts(grouped);
    assert row in ranked by {
      assert row in multiset(grouped);
    }
    RankedRowIsReported(ranked, row);
  }

  /** A ranked row is in the list of its type. */
  lemma RankedRowIsReported(ranked: seq<IncidentRow>, row: IncidentRow)
    requires row in ranked
    ensures row.tipoUsuario == Cliente ==> row in Clientes(ranked)
    ensures row.tipoUsuario == Administrador ==> row in Administradores(ranked)
  {
    var i :| 0 <= i < |ranked| && ranked[i] == row;
    if row.tipoUsuario == Cliente {
      assert ranked[i] in Clientes(ranked);
    } else {
      assert ranked[i] in Administradores(ranked);
    }
  }

  /** The group stage holds the expected row of every existing user with a record. */
  lemma GroupedRowIsExpected(attempts: seq<FailedAttempt>, users: seq<User>, id: Oid)
    requires UserById(users, id).Some? && AttemptRecords(attempts, id) >= 1
    ensures ExpectedRow(attempts, users, id) in Group(Joined(attempts, users))
  {
    var joined := Joined(attempts, users);
    var grouped := Group(joined);
    JoinedOccurrences(attempts, users, id);
    JoinedAreFound(attempts, users);
    var k := RowOf(grouped, id).value;
    assert grouped[k].userId == id;
    assert RowFrom(grouped[k], joined);
    var j :| 0 <= j < |joined| && RowFor(grouped[k], joined[j]);
    assert joined[j] == users[UserById(users, id).value];
  }

  /** The report lists each user at most once. */
  lemma ReportHasOneRowPerUser(attempts: seq<FailedAttempt>, users: seq<User>)
    ensures DistinctIds(SortByAttempts(Group(Joined(attempts, users))))
  {
    var grouped := Group(Joined(attempts, users));
    var ranked := SortByAttempts(grouped);
    forall i, j | 0 <= i < j < |ranked|
      ensures ranked[i].userId != ranked[j].userId
    {
      PermutedRowsDiffer(grouped, ranked, i, j);
    }
  }

  /** Two positions of a permutation of rows with distinct ids hold different ids. */
  lemma PermutedRowsDiffer(rows: seq<IncidentRow>, perm: seq<IncidentRow>, i: nat, j: nat)
    requires DistinctIds(rows) && multiset(perm) == multiset(rows)
    requires i < j < |perm|
    ensures perm[i].userId != perm[j].userId
  {
    assert perm[i] in multiset(rows);
    assert perm[j] in multiset(rows);
    var a :| 0 <= a < |rows| && rows[a] == perm[i];
    var b :| 0 <= b < |rows| && rows[b] == perm[j];
    if a == b {
      MultisetSameElementTwice(perm, i, j);
      MultisetCountAtMostOne(rows, a);
      assert false;
    }
  }

  /** Two positions holding the same row make it occur twice. */
  lemma MultisetSameElementTwice(s: seq<IncidentRow>, i: nat, j: nat)
    requires i < j < |s| && s[i] == s[j]
    ensures multiset(s)[s[i]] >= 2
  {
    assert s == s[..i] + [s[i]] + s[i + 1..j] + [s[j]] + s[j + 1..];
  }

  /** With distinct ids, a grouped row occurs once. */
  lemma MultisetCountAtMostOne(rows: seq<IncidentRow>, a: nat)
    requires DistinctIds(rows) && a < |rows|
    ensures multiset(rows)[rows[a]] == 1
  {
    assert rows == rows[..a] + [rows[a]] + rows[a + 1..];
    assert rows[a] !in rows[..a];
    assert rows[a] !in rows[a + 1..];
  }
}
