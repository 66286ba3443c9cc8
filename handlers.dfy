/** Handler construction, after effects/handler.h.

    An effect is known by its id, a number, and a handler clause carries the
    id of the effect it handles. A `Handler` maps effect ids to clauses and
    keeps every clause it was given, in order, in a separate list. Building
    the map uses `unordered_map::insert`, which does not overwrite: among
    clauses with the same id, the first one is kept. The return handler
    defaults to the identity. */
module Handlers {

  /** A `Handler_Clause`, known here only by its effect id. */
  class HandlerClause {
    const id: nat

    constructor (id: nat)
      ensures this.id == id
    {
      this.id := id;
    }
  }

  /** The map the multi-clause constructor builds from `cs`: one entry per
      id, holding the first clause with that id. */
  function FirstById(cs: seq<HandlerClause>): (r: map<nat, HandlerClause>)
    ensures forall k :: k in r ==> r[k].id == k && r[k] in cs
    decreases |cs|
  {
    if cs == [] then map[]
    else
      var m := FirstById(cs[..|cs| - 1]);
      var c := cs[|cs| - 1];
      if c.id in m then m else m[c.id := c]
  }

  /** Every clause's id is a key, and every key is some clause's id. */
  lemma {:induction false} FirstByIdKeys(cs: seq<HandlerClause>, k: nat)
    ensures k in FirstById(cs) <==> exists i :: 0 <= i < |cs| && cs[i].id == k
    decreases |cs|
  {
    if cs != [] {
      var init := cs[..|cs| - 1];
      FirstByIdKeys(init, k);
      if k in FirstById(init) {
        var i :| 0 <= i < |init| && init[i].id == k;
        assert cs[i].id == k;
      }
      if exists i :: 0 <= i < |cs| && cs[i].id == k {
        var i :| 0 <= i < |cs| && cs[i].id == k;
        if i < |cs| - 1 {
          assert init[i].id == k;
        }
      }
    }
  }

  /** The clause kept for an id is the first clause with that id. */
  lemma {:induction false} FirstByIdKeepsFirst(cs: seq<HandlerClause>, i: nat)
    requires i < |cs|
    requires forall j :: 0 <= j < i ==> cs[j].id != cs[i].id
    ensures cs[i].id in FirstById(cs) && FirstById(cs)[cs[i].id] == cs[i]
    decreases |cs|
  {
    var init := cs[..|cs| - 1];
    if i < |cs| - 1 {
      FirstByIdKeepsFirst(init, i);
    } else {
      FirstByIdKeys(init, cs[i].id);
    }
  }

  /** The map has no more entries than there are clauses. */
  lemma {:induction false} FirstByIdSize(cs: seq<HandlerClause>)
    ensures |FirstById(cs)| <= |cs|
    decreases |cs|
  {
    if cs != [] {
      FirstByIdSize(cs[..|cs| - 1]);
    }
  }

  /** The default return handler, `[](Input x){ return x; }`. */
  function Identity<T(!new)>(): (f: T -> T)
    ensures forall x :: f(x) == x
  {
    x => x
  }

  /** `Handler<Result, Input>`. */
  class Handler<R, I> {
    var clauses: map<nat, HandlerClause>
    const returnHandler: I -> R
    /** `unique_ptrs`: every clause given, in order, duplicates included. */
    var uniquePtrs: seq<HandlerClause>

    /** The single-clause constructor: the map has exactly one entry, the
        clause under its own id. */
    constructor Single(clause: HandlerClause, returnHandler: I -> R)
      ensures clauses.Keys == {clause.id} && clauses[clause.id] == clause
      ensures uniquePtrs == [clause]
      ensures this.returnHandler == returnHandler
    {
      this.returnHandler := returnHandler;
      clauses := map[clause.id := clause];
      uniquePtrs := [clause];
    }

    /** The multi-clause constructor: each clause is inserted under its id
        unless the id is already there, and appended to `unique_ptrs`. */
    constructor Multi(cs: seq<HandlerClause>, returnHandler: I -> R)
      ensures clauses == FirstById(cs)
      ensures uniquePtrs == cs
      ensures this.returnHandler == returnHandler
    {
      this.returnHandler := returnHandler;
      clauses := map[];
      uniquePtrs := [];
      new;
      var i := 0;
      while i < |cs|
        invariant 0 <= i <= |cs|
        invariant clauses == FirstById(cs[..i])
        invariant uniquePtrs == cs[..i]
      {
        assert cs[..i + 1][..i] == cs[..i];
        if cs[i].id !in clauses {
          clauses := clauses[cs[i].id := cs[i]];
        }
        uniquePtrs := uniquePtrs + [cs[i]];
        i := i + 1;
      }
      assert cs[..|cs|] == cs;
    }
  }

  /** A single-clause handler built without a return handler passes the
      body's value through unchanged. */
  method SingleWithDefault<T(!new)>(clause: HandlerClause) returns (h: Handler<T, T>)
    ensures forall x :: h.returnHandler(x) == x
    ensures h.clauses.Keys == {clause.id} && h.clauses[clause.id] == clause
  {
    h := new Handler.Single(clause, Identity());
  }

  /** A multi-clause handler built without a return handler passes the
      body's value through unchanged. */
  method MultiWithDefault<T(!new)>(cs: seq<HandlerClause>) returns (h: Handler<T, T>)
    ensures forall x :: h.returnHandler(x) == x
    ensures h.clauses == FirstById(cs) && h.uniquePtrs == cs
  {
    h := new Handler.Multi(cs, Identity());
  }
}
