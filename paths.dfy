/** Path resolution over the model graph: a reference definition on path
    segments, and what `GetRelatedModelInfo` reaches along chains of
    relational fields. */
module PathProperties {
  import opened Wrappers
  import opened GoStrings
  import opened Models

  /** Resolution on a path already split into segments. It re-checks for the
      empty path (`[""]`) at every step, as `getRelatedModelInfo` does when it
      recurses on the rest of a path that ends with a separator. */
  ghost function Walk(m: Model, segs: seq<string>, skipLast: bool, U: set<FieldsCollection>): (r: Result<Model>)
    requires |segs| >= 1 && m.fields in U && Closed(U)
    reads U
    ensures r.Success? ==> r.value.fields in U
    decreases |segs|
  {
    if segs == [""] then Success(m)
    else
      var fi :- m.fields.MustGet(segs[0]);
      if fi.relatedModel == null || (|segs| == 1 && skipLast) then Success(m)
      else if |segs| > 1 then Walk(fi.relatedModel, segs[1..], skipLast, U)
      else Success(fi.relatedModel)
  }

  /** `GetRelatedModelInfo` on a joined path is the walk over its segments:
      re-joining the tail at each step and splitting it again loses nothing. */
  lemma {:induction false} RelatedModelInfoIsWalk(m: Model, segs: seq<string>, skipLast: bool, U: set<FieldsCollection>)
    requires |segs| >= 1 && m.fields in U && Closed(U)
    requires forall i :: 0 <= i < |segs| ==> ExprSep !in segs[i]
    ensures m.GetRelatedModelInfo(Join(segs, ExprSep), skipLast, U) == Walk(m, segs, skipLast, U)
    decreases |segs|
  {
    var path := Join(segs, ExprSep);
    SplitJoin(segs, ExprSep);
    if segs != [""] && path != "" {
      var fi := m.fields.MustGet(segs[0]);
      if fi.Success? && fi.value.relatedModel != null && |segs| > 1 {
        assert Split(path, ExprSep)[1..] == segs[1..];
        RelatedModelInfoIsWalk(fi.value.relatedModel, segs[1..], skipLast, U);
      }
    }
  }

  /** Every segment of `p` is a non-empty name of a relational field, each
      looked up in the model the previous one leads to. */
  ghost predicate Traverses(m: Model, p: seq<string>, U: set<FieldsCollection>)
    requires m.fields in U && Closed(U)
    reads U
    decreases |p|
  {
    |p| == 0 ||
    (p[0] != "" && m.fields.Get(p[0]).Some? && m.fields.Get(p[0]).value.relatedModel != null &&
     Traverses(m.fields.Get(p[0]).value.relatedModel, p[1..], U))
  }

  /** The model at the far end of a traversed chain. */
  ghost function Target(m: Model, p: seq<string>, U: set<FieldsCollection>): (t: Model)
    requires m.fields in U && Closed(U) && Traverses(m, p, U)
    reads U
    ensures t.fields in U
    decreases |p|
  {
    if |p| == 0 then m else Target(m.fields.Get(p[0]).value.relatedModel, p[1..], U)
  }

  /** On a chain of relational fields, resolution without `skipLast` reaches
      the model at the far end. */
  lemma {:induction false} WalkChain(m: Model, p: seq<string>, U: set<FieldsCollection>)
    requires m.fields in U && Closed(U) && |p| >= 1 && Traverses(m, p, U)
    ensures Walk(m, p, false, U) == Success(Target(m, p, U))
    decreases |p|
  {
    if |p| > 1 {
      WalkChain(m.fields.Get(p[0]).value.relatedModel, p[1..], U);
    }
  }

  /** With `skipLast`, resolution of a chain followed by a declared field `s`
      stops at the model that declares `s`, whether or not `s` is relational. */
  lemma {:induction false} WalkSkipLast(m: Model, p: seq<string>, s: string, U: set<FieldsCollection>)
    requires m.fields in U && Closed(U) && Traverses(m, p, U)
    requires Target(m, p, U).fields.Get(s).Some?
    ensures Walk(m, p + [s], true, U) == Success(Target(m, p, U))
    decreases |p|
  {
    if |p| > 0 {
      assert (p + [s])[1..] == p[1..] + [s];
      WalkSkipLast(m.fields.Get(p[0]).value.relatedModel, p[1..], s, U);
    }
  }

  /** Resolution never goes past a non-relational field: after a chain, a
      declared non-relational field `s` ends it whatever follows and whatever
      `skipLast` is. */
  lemma {:induction false} WalkStopsAtScalar(m: Model, p: seq<string>, s: string, rest: seq<string>,
                                             skipLast: bool, U: set<FieldsCollection>)
    requires m.fields in U && Closed(U) && Traverses(m, p, U) && s != ""
    requires Target(m, p, U).fields.Get(s).Some? && Target(m, p, U).fields.Get(s).value.relatedModel == null
    ensures Walk(m, p + [s] + rest, skipLast, U) == Success(Target(m, p, U))
    decreases |p|
  {
    if |p| > 0 {
      assert (p + [s] + rest)[1..] == p[1..] + [s] + rest;
      WalkStopsAtScalar(m.fields.Get(p[0]).value.relatedModel, p[1..], s, rest, skipLast, U);
    }
  }

  /** When `skipLast` resolution succeeds on a path of non-empty segments, it
      agrees with plain resolution of the path without its last segment. */
  lemma {:induction false} SkipLastIsPrefix(m: Model, segs: seq<string>, U: set<FieldsCollection>)
    requires m.fields in U && Closed(U) && |segs| >= 2
    requires forall i :: 0 <= i < |segs| ==> segs[i] != ""
    requires Walk(m, segs, true, U).Success?
    ensures Walk(m, segs, true, U) == Walk(m, segs[..|segs| - 1], false, U)
    decreases |segs|
  {
    var fi := m.fields.MustGet(segs[0]);
    if fi.value.relatedModel != null && |segs| > 2 {
      assert segs[..|segs| - 1][1..] == segs[1..][..|segs| - 2];
      SkipLastIsPrefix(fi.value.relatedModel, segs[1..], U);
    }
  }

  /** `GetRelatedFieldInfo` on a chain of relational fields followed by a
      field name `s` finds the field `s` of the model at the far end. */
  lemma RelatedFieldOfChain(m: Model, p: seq<string>, s: string, U: set<FieldsCollection>)
    requires m.fields in U && Closed(U) && Traverses(m, p, U)
    requires forall i :: 0 <= i < |p| ==> ExprSep !in p[i]
    requires ExprSep !in s && Target(m, p, U).fields.Get(s).Some?
    ensures m.GetRelatedFieldInfo(Join(p + [s], ExprSep), U) == Success(Target(m, p, U).fields.Get(s).value)
  {
    var segs := p + [s];
    assert forall i :: 0 <= i < |segs| ==> ExprSep !in segs[i];
    SplitJoin(segs, ExprSep);
    assert Last(Split(Join(segs, ExprSep), ExprSep)) == s;
    m.RelatedFieldInfoIsLookup(Join(segs, ExprSep), U);
    if |p| > 0 {
      RelatedModelInfoIsWalk(m, segs, true, U);
      WalkSkipLast(m, p, s, U);
    }
  }
}
