/**
 * What the parameter loop of invokeNamedQuery collects, stated independently of the loop:
 * which parameter stops it, what is bound under each name, and which values the pagination
 * offset and limit end up with.
 */
module Binding {
  import opened Wrappers
  import opened Store
  import opened JavaTypes
  import opened Operations
  import opened HandlerSpec

  /** Parameter j is a @QueryParam whose argument is null. */
  predicate NullQueryParam(ds: seq<ParamDecl>, vs: seq<Option<Obj>>, j: int)
    requires |ds| == |vs|
  {
    0 <= j < |ds| && ds[j].role.QueryParam? && vs[j].None?
  }

  /** Parameter j is the last one declared with its role. */
  predicate LastWithRole(ds: seq<ParamDecl>, j: int)
    requires 0 <= j < |ds|
  {
    forall k :: j < k < |ds| ==> ds[k].role != ds[j].role
  }

  /** Parameter j is the last one that sets the offset. */
  predicate LastOffset(ds: seq<ParamDecl>, j: int)
    requires 0 <= j < |ds|
  {
    SetsOffset(ds[j]) && forall k :: j < k < |ds| ==> !SetsOffset(ds[k])
  }

  /** Parameter j is the last one that sets the limit. */
  predicate LastMaxResults(ds: seq<ParamDecl>, j: int)
    requires 0 <= j < |ds|
  {
    SetsMaxResults(ds[j]) && forall k :: j < k < |ds| ==> !SetsMaxResults(ds[k])
  }

  /**
   * The loop stops with a validation error exactly when some @QueryParam argument is null,
   * and the error names the first such parameter.
   */
  lemma {:induction false} BindRejectsFirstNull(ds: seq<ParamDecl>, vs: seq<Option<Obj>>, i: nat, acc: Extracted)
    requires |ds| == |vs| && i <= |ds|
    ensures BindFrom(ds, vs, i, acc).Err? <==> exists j :: i <= j && NullQueryParam(ds, vs, j)
    ensures BindFrom(ds, vs, i, acc).Err? ==>
              exists j :: i <= j && NullQueryParam(ds, vs, j) &&
                (forall k :: i <= k < j ==> !NullQueryParam(ds, vs, k)) &&
                BindFrom(ds, vs, i, acc).message == ds[j].role.name + " is null"
    decreases |ds| - i
  {
    if i < |ds| {
      if NullQueryParam(ds, vs, i) {
        assert BindFrom(ds, vs, i, acc) == Err(ds[i].role.name + " is null");
      } else {
        var next := BindOne(ds[i], vs[i], acc).value;
        assert BindFrom(ds, vs, i, acc) == BindFrom(ds, vs, i + 1, next);
        BindRejectsFirstNull(ds, vs, i + 1, next);
        if BindFrom(ds, vs, i, acc).Err? {
          var j :| i + 1 <= j && NullQueryParam(ds, vs, j) &&
                   (forall k :: i + 1 <= k < j ==> !NullQueryParam(ds, vs, k)) &&
                   BindFrom(ds, vs, i + 1, next).message == ds[j].role.name + " is null";
          assert forall k :: i <= k < j ==> !NullQueryParam(ds, vs, k);
        }
      }
    }
  }

  /**
   * On success exactly the @QueryParam names from parameter i on are bound, besides the names
   * bound before parameter i.
   */
  lemma {:induction false} BindBindsDeclaredNames(ds: seq<ParamDecl>, vs: seq<Option<Obj>>, i: nat, acc: Extracted)
    requires |ds| == |vs| && i <= |ds| && BindFrom(ds, vs, i, acc).Ok?
    ensures forall n :: n in BindFrom(ds, vs, i, acc).value.bindings <==>
      n in acc.bindings || exists j :: i <= j < |ds| && ds[j].role == QueryParam(n)
    decreases |ds| - i
  {
    if i < |ds| {
      var next := BindOne(ds[i], vs[i], acc).value;
      assert BindFrom(ds, vs, i, acc) == BindFrom(ds, vs, i + 1, next);
      BindBindsDeclaredNames(ds, vs, i + 1, next);
    }
  }

  /**
   * On success each @QueryParam name from parameter i on is bound to the (non-null) argument
   * of the last parameter declared with that name.
   */
  lemma {:induction false} BindTakesLastValue(ds: seq<ParamDecl>, vs: seq<Option<Obj>>, i: nat, acc: Extracted)
    requires |ds| == |vs| && i <= |ds| && BindFrom(ds, vs, i, acc).Ok?
    ensures var b := BindFrom(ds, vs, i, acc).value.bindings;
      forall j :: i <= j < |ds| && ds[j].role.QueryParam? && LastWithRole(ds, j) ==>
        vs[j].Some? && ds[j].role.name in b && b[ds[j].role.name] == vs[j].value
    decreases |ds| - i
  {
    if i < |ds| {
      var next := BindOne(ds[i], vs[i], acc).value;
      assert BindFrom(ds, vs, i, acc) == BindFrom(ds, vs, i + 1, next);
      BindTakesLastValue(ds, vs, i + 1, next);
      if ds[i].role.QueryParam? && LastWithRole(ds, i) {
        var n := ds[i].role.name;
        assert next.bindings == acc.bindings[n := vs[i].value];
        BindKeepsUndeclared(ds, vs, i + 1, next, n);
      }
    }
  }

  /** On success a name bound before parameter i and not declared from i on keeps its value. */
  lemma {:induction false} BindKeepsUndeclared(ds: seq<ParamDecl>, vs: seq<Option<Obj>>, i: nat, acc: Extracted, n: string)
    requires |ds| == |vs| && i <= |ds| && BindFrom(ds, vs, i, acc).Ok?
    requires n in acc.bindings && forall j :: i <= j < |ds| ==> ds[j].role != QueryParam(n)
    ensures n in BindFrom(ds, vs, i, acc).value.bindings
    ensures BindFrom(ds, vs, i, acc).value.bindings[n] == acc.bindings[n]
    decreases |ds| - i
  {
    if i < |ds| {
      var next := BindOne(ds[i], vs[i], acc).value;
      assert BindFrom(ds, vs, i, acc) == BindFrom(ds, vs, i + 1, next);
      assert ds[i].role != QueryParam(n);
      BindKeepsUndeclared(ds, vs, i + 1, next, n);
    }
  }

  /**
   * On success the offset is the value of the last Integer @Offset parameter from i on
   * (null included), or the one collected before i when there is none.
   */
  lemma {:induction false} BindTakesLastOffset(ds: seq<ParamDecl>, vs: seq<Option<Obj>>, i: nat, acc: Extracted)
    requires |ds| == |vs| && i <= |ds| && BindFrom(ds, vs, i, acc).Ok?
    ensures var x := BindFrom(ds, vs, i, acc).value;
      ((forall j :: i <= j < |ds| ==> !SetsOffset(ds[j])) ==> x.offset == acc.offset) &&
      (forall j :: i <= j < |ds| && LastOffset(ds, j) ==> x.offset == AsInt(vs[j]))
    decreases |ds| - i
  {
    if i < |ds| {
      var next := BindOne(ds[i], vs[i], acc).value;
      assert BindFrom(ds, vs, i, acc) == BindFrom(ds, vs, i + 1, next);
      BindTakesLastOffset(ds, vs, i + 1, next);
      assert next.offset == if SetsOffset(ds[i]) then AsInt(vs[i]) else acc.offset;
    }
  }

  /**
   * On success the limit is the value of the last Integer @MaxResults parameter from i on
   * (null included), or the one collected before i when there is none.
   */
  lemma {:induction false} BindTakesLastMaxResults(ds: seq<ParamDecl>, vs: seq<Option<Obj>>, i: nat, acc: Extracted)
    requires |ds| == |vs| && i <= |ds| && BindFrom(ds, vs, i, acc).Ok?
    ensures var x := BindFrom(ds, vs, i, acc).value;
      ((forall j :: i <= j < |ds| ==> !SetsMaxResults(ds[j])) ==> x.maxResults == acc.maxResults) &&
      (forall j :: i <= j < |ds| && LastMaxResults(ds, j) ==> x.maxResults == AsInt(vs[j]))
    decreases |ds| - i
  {
    if i < |ds| {
      var next := BindOne(ds[i], vs[i], acc).value;
      assert BindFrom(ds, vs, i, acc) == BindFrom(ds, vs, i + 1, next);
      BindTakesLastMaxResults(ds, vs, i + 1, next);
      assert next.maxResults == if SetsMaxResults(ds[i]) then AsInt(vs[i]) else acc.maxResults;
    }
  }

  /**
   * Pagination takes effect exactly when an Integer @Offset and an Integer @MaxResults are
   * declared and the last of each carries a non-null value; a missing or null one pages nothing.
   */
  lemma PagedExactlyWithBothValues(ds: seq<ParamDecl>, vs: seq<Option<Obj>>)
    requires |ds| == |vs| && Bind(ds, vs).Ok?
    ensures Paged(Bind(ds, vs).value) <==>
      (exists j :: 0 <= j < |ds| && LastOffset(ds, j) && AsInt(vs[j]).Some?) &&
      (exists j :: 0 <= j < |ds| && LastMaxResults(ds, j) && AsInt(vs[j]).Some?)
  {
    BindTakesLastOffset(ds, vs, 0, NothingExtracted);
    BindTakesLastMaxResults(ds, vs, 0, NothingExtracted);
    ExistsLastOffset(ds, 0);
    ExistsLastMaxResults(ds, 0);
  }

  /** When some parameter from i on sets the offset, one of them is the last. */
  lemma {:induction false} ExistsLastOffset(ds: seq<ParamDecl>, i: nat)
    requires i <= |ds|
    ensures (exists j :: i <= j < |ds| && SetsOffset(ds[j])) ==> exists j :: i <= j < |ds| && LastOffset(ds, j)
    decreases |ds| - i
  {
    if i < |ds| {
      ExistsLastOffset(ds, i + 1);
      if SetsOffset(ds[i]) && !exists j :: i + 1 <= j < |ds| && SetsOffset(ds[j]) {
        assert LastOffset(ds, i);
      }
    }
  }

  /** When some parameter from i on sets the limit, one of them is the last. */
  lemma {:induction false} ExistsLastMaxResults(ds: seq<ParamDecl>, i: nat)
    requires i <= |ds|
    ensures (exists j :: i <= j < |ds| && SetsMaxResults(ds[j])) ==> exists j :: i <= j < |ds| && LastMaxResults(ds, j)
    decreases |ds| - i
  {
    if i < |ds| {
      ExistsLastMaxResults(ds, i + 1);
      if SetsMaxResults(ds[i]) && !exists j :: i + 1 <= j < |ds| && SetsMaxResults(ds[j]) {
        assert LastMaxResults(ds, i);
      }
    }
  }
}
