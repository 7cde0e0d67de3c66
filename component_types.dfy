/** The component type tags of the component system and the two rules
    attached to them: the order in which a game object keeps (and updates)
    its components, and which types may occur more than once. */
module ComponentTypes {

  /** The tags, declared in the order of the source's enumeration. */
  datatype ComponentType = Transform | MeshRenderer | Collider | Script | Unknown

  /** The integer value of a tag: its position in the enumeration. The
      comparator that sorts a game object's components compares these. */
  function Ordinal(t: ComponentType): (n: nat)
    ensures n < 5
  {
    match t
    case Transform => 0
    case MeshRenderer => 1
    case Collider => 2
    case Script => 3
    case Unknown => 4
  }

  /** Whether a game object may hold several components of type `t`.
      Only scripts may; the three listed single types say no explicitly and
      every other tag falls through to no. */
  function IsMultiComponent(t: ComponentType): (r: bool)
    ensures r <==> t == Script
  {
    match t
    case Transform => false
    case Collider => false
    case MeshRenderer => false
    case Script => true
    case _ => false
  }

  /** A sequence of tags in non-decreasing enumeration order: each tag is
      no smaller than the one before it. */
  ghost predicate Ordered(ks: seq<ComponentType>)
  {
    forall i :: 0 < i < |ks| ==> Ordinal(ks[i - 1]) <= Ordinal(ks[i])
  }

  /** In an ordered sequence every tag is no smaller than every tag at an
      earlier position. */
  lemma {:induction false} OrderedPairs(ks: seq<ComponentType>, i: nat, j: nat)
    requires Ordered(ks) && i <= j < |ks|
    ensures Ordinal(ks[i]) <= Ordinal(ks[j])
    decreases j - i
  {
    if i < j {
      OrderedPairs(ks, i, j - 1);
    }
  }

  /** The admission check keeps the invariant: adding one tag that is a
      multi-component type or is not yet present, in any order, leaves every
      single-instance type at most once. */
  lemma AdmitPreservesSingleInstance(before: seq<ComponentType>, after: seq<ComponentType>, t: ComponentType)
    requires SingleInstance(before)
    requires IsMultiComponent(t) || t !in before
    requires multiset(after) == multiset(before) + multiset{t}
    ensures SingleInstance(after)
  {
    forall u | !IsMultiComponent(u)
      ensures multiset(after)[u] <= 1
    {
      if u == t {
        assert t !in multiset(before);
      }
    }
  }

  /** Inserting a tag after a no larger tag and before a larger one keeps
      a sequence ordered. */
  lemma OrderedInsert(ks: seq<ComponentType>, k: nat, t: ComponentType)
    requires Ordered(ks) && k <= |ks|
    requires k > 0 ==> Ordinal(ks[k - 1]) <= Ordinal(t)
    requires k < |ks| ==> Ordinal(t) < Ordinal(ks[k])
    ensures Ordered(ks[..k] + [t] + ks[k..])
  {
    var r := ks[..k] + [t] + ks[k..];
    forall i | 0 < i < |r|
      ensures Ordinal(r[i - 1]) <= Ordinal(r[i])
    {
      if i < k {
        assert r[i - 1] == ks[i - 1] && r[i] == ks[i];
      } else if i > k + 1 {
        assert r[i - 1] == ks[i - 2] && r[i] == ks[i - 1];
      }
    }
  }

  /** A tag no larger than the first of an ordered sequence can go in front. */
  lemma OrderedCons(t: ComponentType, ks: seq<ComponentType>)
    requires Ordered(ks) && (ks != [] ==> Ordinal(t) <= Ordinal(ks[0]))
    ensures Ordered([t] + ks)
  {
    var r := [t] + ks;
    forall i | 1 < i < |r|
      ensures Ordinal(r[i - 1]) <= Ordinal(r[i])
    {
      assert r[i - 1] == ks[i - 2] && r[i] == ks[i - 1];
    }
  }

  /** A tag no smaller than the last of an ordered sequence can go behind. */
  lemma OrderedSnoc(ks: seq<ComponentType>, t: ComponentType)
    requires Ordered(ks) && (ks != [] ==> Ordinal(ks[|ks| - 1]) <= Ordinal(t))
    ensures Ordered(ks + [t])
  {
    var r := ks + [t];
    forall i | 0 < i < |ks|
      ensures Ordinal(r[i - 1]) <= Ordinal(r[i])
    {
      assert r[i - 1] == ks[i - 1] && r[i] == ks[i];
    }
  }

  /** Whether an object holding the tags `ks` accepts one more component of
      type `t`: a multi-component type always, any other type only when
      absent. */
  predicate Admits(ks: seq<ComponentType>, t: ComponentType): (r: bool)
    ensures r <==> t == Script || t !in ks
  {
    IsMultiComponent(t) || t !in ks
  }

  /** The tags `ks` with `t` placed before the first larger tag. */
  function InsertTag(ks: seq<ComponentType>, t: ComponentType): (r: seq<ComponentType>)
  {
    if ks == [] || Ordinal(t) < Ordinal(ks[0]) then [t] + ks
    else [ks[0]] + InsertTag(ks[1..], t)
  }

  /** The tags an object holding `ks` holds, in list order, after an
      attempt to add a component of type `t`. */
  function AddTag(ks: seq<ComponentType>, t: ComponentType): (r: seq<ComponentType>)
  {
    if Admits(ks, t) then InsertTag(ks, t) else ks
  }

  /** Inserting a tag keeps a sequence ordered. */
  lemma {:induction false} InsertTagOrdered(ks: seq<ComponentType>, t: ComponentType)
    requires Ordered(ks)
    ensures Ordered(InsertTag(ks, t))
  {
    if ks == [] || Ordinal(t) < Ordinal(ks[0]) {
      OrderedCons(t, ks);
    } else {
      var rest := InsertTag(ks[1..], t);
      OrderedTail(ks);
      InsertTagOrdered(ks[1..], t);
      assert rest[0] == t || rest[0] == ks[1];
      OrderedCons(ks[0], rest);
    }
  }

  /** Inserting a tag adds exactly that tag. */
  lemma {:induction false} InsertTagCount(ks: seq<ComponentType>, t: ComponentType)
    ensures multiset(InsertTag(ks, t)) == multiset(ks) + multiset{t}
  {
    if ks != [] && Ordinal(t) >= Ordinal(ks[0]) {
      InsertTagCount(ks[1..], t);
      assert ks == [ks[0]] + ks[1..];
    }
  }

  /** An attempted addition keeps the invariant on tags: they stay ordered
      and every single-instance type stays at most once. */
  lemma AddTagKeepsInvariant(ks: seq<ComponentType>, t: ComponentType)
    requires Ordered(ks) && SingleInstance(ks)
    ensures Ordered(AddTag(ks, t)) && SingleInstance(AddTag(ks, t))
  {
    if Admits(ks, t) {
      InsertTagOrdered(ks, t);
      InsertTagCount(ks, t);
      AdmitPreservesSingleInstance(ks, InsertTag(ks, t), t);
    }
  }

  /** The registry invariant on the tags a game object holds: every type
      that is not a multi-component type occurs at most once. */
  ghost predicate SingleInstance(ks: seq<ComponentType>)
  {
    forall t :: !IsMultiComponent(t) ==> multiset(ks)[t] <= 1
  }

  /** The invariant read position by position: two different positions
      holding the same tag hold a multi-component type. */
  lemma SingleInstanceAt(ks: seq<ComponentType>, i: nat, j: nat)
    requires SingleInstance(ks)
    requires i < |ks| && j < |ks| && i != j && ks[i] == ks[j]
    ensures IsMultiComponent(ks[i])
  {
    if i < j {
      DuplicateCount(ks, i, j);
    } else {
      DuplicateCount(ks, j, i);
    }
  }

  /** Distinct tags have distinct values, so comparing values orders tags totally. */
  lemma OrdinalInjective(a: ComponentType, b: ComponentType)
    ensures Ordinal(a) == Ordinal(b) <==> a == b
  {
  }

  /** The enumeration order the sort follows. */
  lemma EnumerationOrder()
    ensures Ordinal(Transform) < Ordinal(MeshRenderer) < Ordinal(Collider) < Ordinal(Script) < Ordinal(Unknown)
  {
  }

  /** An element occurring at two positions is counted at least twice. */
  lemma {:induction false} DuplicateCount<T>(s: seq<T>, i: nat, j: nat)
    requires i < j < |s| && s[i] == s[j]
    ensures multiset(s)[s[i]] >= 2
  {
    assert s == s[..j] + [s[j]] + s[j + 1..];
    assert s[i] in s[..j];
  }

  /** The first tag of an ordered sequence is its smallest. */
  lemma OrderedHead(ks: seq<ComponentType>, t: ComponentType)
    requires Ordered(ks) && t in ks
    ensures Ordinal(ks[0]) <= Ordinal(t)
  {
    var i :| 0 <= i < |ks| && ks[i] == t;
    OrderedPairs(ks, 0, i);
  }

  /** Dropping the first tag keeps a sequence ordered. */
  lemma OrderedTail(ks: seq<ComponentType>)
    requires Ordered(ks) && ks != []
    ensures Ordered(ks[1..])
  {
    forall i | 0 < i < |ks| - 1
      ensures Ordinal(ks[1..][i - 1]) <= Ordinal(ks[1..][i])
    {
      assert ks[1..][i - 1] == ks[i] && ks[1..][i] == ks[i + 1];
    }
  }

  /** The elements after the first are all but one copy of the first. */
  lemma DropFirst<T>(s: seq<T>)
    requires s != []
    ensures multiset(s[1..]) == multiset(s) - multiset{s[0]}
  {
    assert s == [s[0]] + s[1..];
  }

  /** Inserting an element anywhere adds exactly that element. */
  lemma InsertCount<T>(s: seq<T>, k: nat, x: T)
    requires k <= |s|
    ensures multiset(s[..k] + [x] + s[k..]) == multiset(s) + multiset{x}
  {
    assert s == s[..k] + s[k..];
  }

  /** Two ordered tag sequences holding the same tags are equal: once the
      multiset of tags is known, the sorted order of a game object's
      components is determined tag by tag, even though the sort itself is
      not stable. */
  lemma {:induction false} OrderedUnique(a: seq<ComponentType>, b: seq<ComponentType>)
    requires Ordered(a) && Ordered(b)
    requires multiset(a) == multiset(b)
    ensures a == b
  {
    assert |a| == |multiset(a)| == |multiset(b)| == |b|;
    if a != [] {
      assert a[0] in multiset(b) && b[0] in multiset(a);
      OrderedHead(b, a[0]);
      OrderedHead(a, b[0]);
      OrdinalInjective(a[0], b[0]);
      DropFirst(a);
      DropFirst(b);
      OrderedTail(a);
      OrderedTail(b);
      OrderedUnique(a[1..], b[1..]);
    }
  }
}
