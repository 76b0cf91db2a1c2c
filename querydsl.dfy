/** The part of QueryDSL the repositories use, over the in-memory store:
    predicates on the member/team paths, `where(...)` with null arguments
    skipped, `BooleanBuilder`, `offset`/`limit`, `fetchCount` and
    `fetchResults`. */
module Querydsl {
  import opened Wrappers
  import opened Store

  /** The string paths compared with `eq`. */
  datatype StringPath = MemberUsername | TeamName

  /** The numeric path compared with `goe`/`loe`. */
  datatype NumberPath = MemberAge

  /** A `BooleanExpression` built by the repositories. */
  datatype Predicate =
    | Eq(path: StringPath, text: string)
    | Goe(numPath: NumberPath, bound: int)
    | Loe(numPath: NumberPath, bound: int)
    | And(left: Predicate, right: Predicate)

  /** The exceptions the expression builders throw on a null constant:
      `eq(null)` is refused with IllegalArgumentException, a null `Integer`
      bound ends in NullPointerException; `em.find` with a null id throws
      IllegalArgumentException. */
  datatype QueryError = IllegalArgument | NullPointer

  /** The value of a string path in a joined row (null when the team side
      is absent). */
  function TextAt(path: StringPath, row: JoinedRow): Option<string>
  {
    match path
    case MemberUsername => row.member.username
    case TeamName => if row.team.Some? then row.team.value.name else None
  }

  /** Whether a row satisfies a predicate, with SQL's treatment of null: a
      comparison with a null column is not true, so the row is not selected. */
  function Eval(p: Predicate, row: JoinedRow): bool
  {
    match p
    case Eq(path, text) => TextAt(path, row) == Some(text)
    case Goe(_, bound) => row.member.age >= bound
    case Loe(_, bound) => row.member.age <= bound
    case And(l, r) => Eval(l, row) && Eval(r, row)
  }

  /** A where clause that may be null: null selects every row. */
  predicate Satisfies(p: Option<Predicate>, row: JoinedRow)
  {
    p.None? || Eval(p.value, row)
  }

  /** `ExpressionUtils.and` as `addWhere` and `BooleanBuilder.and` apply it:
      a null right side leaves the accumulator alone, a null accumulator is
      replaced by the right side. */
  function Conjoin(acc: Option<Predicate>, right: Option<Predicate>): (r: Option<Predicate>)
    ensures r.None? <==> acc.None? && right.None?
    ensures forall row :: Satisfies(r, row) <==> Satisfies(acc, row) && Satisfies(right, row)
  {
    match right
    case None => acc
    case Some(q) => if acc.None? then Some(q) else Some(And(acc.value, q))
  }

  /** `where(p1, ..., pn)`: the arguments folded left to right into one
      clause, null arguments skipped. */
  function AllOf(ps: seq<Option<Predicate>>): Option<Predicate>
  {
    if ps == [] then None else Conjoin(AllOf(ps[..|ps| - 1]), ps[|ps| - 1])
  }

  /** Null arguments are the identity of the fold: the combined clause holds
      exactly when every present argument holds, and is null when all are. */
  lemma {:induction false} AllOfMeaning(ps: seq<Option<Predicate>>, row: JoinedRow)
    ensures Satisfies(AllOf(ps), row) <==>
      forall i :: 0 <= i < |ps| && ps[i].Some? ==> Eval(ps[i].value, row)
    ensures AllOf(ps).None? <==> forall i :: 0 <= i < |ps| ==> ps[i].None?
  {
    if ps != [] {
      var init := ps[..|ps| - 1];
      AllOfMeaning(init, row);
      assert forall i :: 0 <= i < |init| ==> init[i] == ps[i];
    }
  }

  /** The rows of a query that satisfy its where clause, in row order. */
  function Where(rows: seq<JoinedRow>, p: Option<Predicate>): (r: seq<JoinedRow>)
    ensures |r| <= |rows|
  {
    if rows == [] then []
    else (if Satisfies(p, rows[0]) then [rows[0]] else []) + Where(rows[1..], p)
  }

  /** `Where` keeps exactly the rows that satisfy the clause. */
  lemma {:induction false} WhereMembers(rows: seq<JoinedRow>, p: Option<Predicate>)
    ensures forall x :: x in Where(rows, p) <==> x in rows && Satisfies(p, x)
  {
    if rows != [] {
      WhereMembers(rows[1..], p);
      assert forall x :: x in rows <==> x == rows[0] || x in rows[1..];
    }
  }

  /** `Where` keeps each satisfying row as many times as it occurs and drops
      every other row. */
  lemma {:induction false} WhereCounts(rows: seq<JoinedRow>, p: Option<Predicate>)
    ensures forall x :: multiset(Where(rows, p))[x] == if Satisfies(p, x) then multiset(rows)[x] else 0
  {
    if rows != [] {
      WhereCounts(rows[1..], p);
      assert rows == [rows[0]] + rows[1..];
    }
  }

  /** `Where` one row at a time. */
  lemma WhereCons(x: JoinedRow, rest: seq<JoinedRow>, p: Option<Predicate>)
    ensures Where([x] + rest, p) == (if Satisfies(p, x) then [x] else []) + Where(rest, p)
  {
    assert ([x] + rest)[1..] == rest;
  }

  /** A null where clause filters nothing. */
  lemma {:induction false} WhereNone(rows: seq<JoinedRow>)
    ensures Where(rows, None) == rows
  {
    if rows != [] {
      WhereNone(rows[1..]);
    }
  }

  /** Two clauses that hold of the same rows select the same rows in the
      same order. */
  lemma {:induction false} WhereExt(rows: seq<JoinedRow>, p: Option<Predicate>, q: Option<Predicate>)
    requires forall row :: Satisfies(p, row) <==> Satisfies(q, row)
    ensures Where(rows, p) == Where(rows, q)
  {
    if rows != [] {
      WhereExt(rows[1..], p, q);
    }
  }

  /** `fetchCount()`: `select count(member)` over the filtered rows. */
  function FetchCount(rows: seq<JoinedRow>, p: Option<Predicate>): (n: nat)
    ensures n <= |rows|
  {
    if rows == [] then 0
    else (if Satisfies(p, rows[0]) then 1 else 0) + FetchCount(rows[1..], p)
  }

  /** The count query counts exactly the rows the content query returns. */
  lemma {:induction false} FetchCountIsWhereLength(rows: seq<JoinedRow>, p: Option<Predicate>)
    ensures FetchCount(rows, p) == |Where(rows, p)|
  {
    if rows != [] {
      FetchCountIsWhereLength(rows[1..], p);
    }
  }

  function Min(a: int, b: int): int { if a <= b then a else b }

  function Max(a: int, b: int): int { if a >= b then a else b }

  /** `.offset(offset).limit(limit)`: skip `offset` rows, then keep at most
      `limit`. */
  function Slice<T>(s: seq<T>, offset: nat, limit: nat): (r: seq<T>)
    ensures |r| == if offset >= |s| then 0 else Min(limit, |s| - offset)
    ensures forall k :: 0 <= k < |r| ==> offset + k < |s| && r[k] == s[offset + k]
  {
    var from := Min(offset, |s|);
    s[from..][..Min(limit, |s| - from)]
  }

  /** `QueryResults`: the page of content and the unpaged total. */
  datatype QueryResults<T> = QueryResults(results: seq<T>, total: nat)

  /** `fetchResults()` on the DTO projection: the count query runs first;
      when it finds rows, the bounded content query runs, otherwise the
      empty result comes back. */
  function FetchResults(rows: seq<JoinedRow>, p: Option<Predicate>, offset: nat, limit: nat)
    : (qr: QueryResults<MemberTeamDto>)
    ensures qr.total == |Where(rows, p)|
    ensures qr.results == Slice(Project(Where(rows, p)), offset, limit)
  {
    FetchCountIsWhereLength(rows, p);
    var total := FetchCount(rows, p);
    if total > 0 then QueryResults(Slice(Project(Where(rows, p)), offset, limit), total)
    else QueryResults([], 0)
  }

  /** `BooleanBuilder`: a mutable, initially null, conjunction. */
  class BooleanBuilder {
    var value: Option<Predicate>

    constructor ()
      ensures value.None?
    {
      value := None;
    }

    /** `and(right)` with a non-null right side. */
    method And(right: Predicate)
      modifies this
      ensures value == Conjoin(old(value), Some(right))
      ensures forall row :: Satisfies(value, row) <==> Satisfies(old(value), row) && Eval(right, row)
    {
      if value.None? {
        value := Some(right);
      } else {
        value := Some(Predicate.And(value.value, right));
      }
    }
  }
}
