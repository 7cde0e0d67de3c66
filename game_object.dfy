/** The per-object component registry: the containers a game object owns,
    the handles it gives out, and the operations that add, find and destroy
    containers. */
module GameObjects {
  import opened ComponentTypes

  /** A heap-allocated container holding one component of payload type `P`
      under a type tag. `live` is true from allocation until the container is
      deallocated. */
  class ComponentContainer<P> {
    const kind: ComponentType
    const data: P
    var live: bool

    constructor (kind: ComponentType, data: P)
      ensures this.kind == kind && this.data == data && live
    {
      this.kind := kind;
      this.data := data;
      live := true;
    }

    /** Deallocates this container; a container can be deallocated only once. */
    method Destroy()
      requires live
      modifies this
      ensures !live
    {
      live := false;
    }
  }

  /** A nullable reference to the component held by a container. */
  datatype ComponentHandle<P> = Null | Handle(target: ComponentContainer<P>)
  {
    /** A handle is valid exactly when it is not null. */
    predicate IsValid(): (r: bool)
      ensures r <==> !Null?
    {
      Handle?
    }
  }

  /** The handle a default construction gives: it refers to nothing. */
  function DefaultHandle<P>(): (h: ComponentHandle<P>)
    ensures !h.IsValid()
  {
    Null
  }

  /** The tags of a sequence of containers, position by position. */
  function Kinds<P>(s: seq<ComponentContainer<P>>): (r: seq<ComponentType>)
  {
    seq(|s|, i requires 0 <= i < |s| => s[i].kind)
  }

  /** Linear scan for the first container with tag `kind`; `|s|` plays the
      role of the end iterator when there is none. */
  function Find<P>(s: seq<ComponentContainer<P>>, kind: ComponentType): (i: nat)
    ensures i <= |s|
    ensures i < |s| ==> s[i].kind == kind
    ensures forall j :: 0 <= j < i ==> s[j].kind != kind
  {
    if s == [] then 0
    else if s[0].kind == kind then 0
    else 1 + Find(s[1..], kind)
  }

  /** Places `x` into the ordered sequence `r` before the first container
      with a larger tag. */
  method InsertByKind<P>(r: seq<ComponentContainer<P>>, x: ComponentContainer<P>)
    returns (t: seq<ComponentContainer<P>>)
    requires Ordered(Kinds(r))
    ensures Ordered(Kinds(t))
    ensures multiset(t) == multiset(r) + multiset{x}
    ensures multiset(Kinds(t)) == multiset(Kinds(r)) + multiset{x.kind}
  {
    var k := 0;
    while k < |r| && Ordinal(r[k].kind) <= Ordinal(x.kind)
      invariant 0 <= k <= |r|
      invariant k > 0 ==> Ordinal(r[k - 1].kind) <= Ordinal(x.kind)
    {
      k := k + 1;
    }
    t := r[..k] + [x] + r[k..];
    ghost var ks := Kinds(r);
    assert Kinds(t) == ks[..k] + [x.kind] + ks[k..];
    OrderedInsert(ks, k, x.kind);
    InsertCount(r, k, x);
    InsertCount(ks, k, x.kind);
  }

  /** Sorts containers by tag: the result is ordered and a permutation of
      the input. Nothing is promised about the relative order of containers
      with equal tags. */
  method SortByKind<P>(s: seq<ComponentContainer<P>>) returns (r: seq<ComponentContainer<P>>)
    ensures Ordered(Kinds(r))
    ensures multiset(r) == multiset(s)
    ensures multiset(Kinds(r)) == multiset(Kinds(s))
  {
    r := [];
    for i := 0 to |s|
      invariant Ordered(Kinds(r))
      invariant multiset(r) == multiset(s[..i])
      invariant multiset(Kinds(r)) == multiset(Kinds(s[..i]))
    {
      r := InsertByKind(r, s[i]);
      assert s[..i + 1] == s[..i] + [s[i]];
      assert Kinds(s[..i + 1]) == Kinds(s[..i]) + [s[i].kind];
    }
    assert s[..|s|] == s;
  }

  /** No element occurs twice. */
  ghost predicate Distinct<T>(s: seq<T>)
  {
    forall x :: x in s ==> multiset(s)[x] == 1
  }

  /** Adding an element not yet present keeps a sequence free of duplicates,
      whatever order the result is in. */
  lemma AddFreshKeepsDistinct<T>(before: seq<T>, after: seq<T>, x: T)
    requires Distinct(before) && x !in before
    requires multiset(after) == multiset(before) + multiset{x}
    ensures Distinct(after)
  {
    assert x !in multiset(before);
  }

  /** When a container's tag is a single-instance type, the scan for that
      tag finds that very container. */
  lemma FindSingle<P>(s: seq<ComponentContainer<P>>, c: ComponentContainer<P>)
    requires SingleInstance(Kinds(s)) && c in s && !IsMultiComponent(c.kind)
    ensures Find(s, c.kind) < |s| && s[Find(s, c.kind)] == c
  {
    var i :| 0 <= i < |s| && s[i] == c;
    var f := Find(s, c.kind);
    if f != i {
      SingleInstanceAt(Kinds(s), f, i);
    }
  }

  /** An entity owning a list of component containers, kept sorted by tag
      so that components are updated in tag order. */
  class GameObject<P> {
    const name: string
    var components: seq<ComponentContainer<P>>

    /** The registry invariant: containers sorted by tag, at most one
        container of each single-instance type, each container owned once,
        and every owned container still allocated. */
    ghost predicate Valid()
      reads this, components
    {
      && Ordered(Kinds(components))
      && SingleInstance(Kinds(components))
      && Distinct(components)
      && (forall i :: 0 <= i < |components| ==> components[i].live)
    }

    constructor (name: string)
      ensures this.name == name && components == [] && Valid()
    {
      this.name := name;
      components := [];
    }

    /** Whether some owned container has tag `kind`. */
    function HasComponent(kind: ComponentType): (r: bool)
      reads this
      ensures r <==> kind in Kinds(components)
      ensures r <==> exists i :: 0 <= i < |components| && components[i].kind == kind
    {
      var i := Find(components, kind);
      assert i < |components| ==> Kinds(components)[i] == kind;
      i < |components|
    }

    /** A handle to the first container, in list order, with tag `kind`,
        or an invalid handle when there is none. */
    function GetComponent(kind: ComponentType): (h: ComponentHandle<P>)
      reads this
      ensures h.IsValid() <==> HasComponent(kind)
      ensures h.IsValid() ==>
        h.target.kind == kind &&
        exists i :: 0 <= i < |components| && components[i] == h.target &&
          forall j :: 0 <= j < i ==> components[j].kind != kind
    {
      var i := Find(components, kind);
      if i < |components| then Handle(components[i]) else DefaultHandle()
    }

    /** Adds a container of tag `kind` holding `data`, unless the tag is a
        single-instance type already present, in which case nothing changes
        and the handle is invalid. An added container is appended and the
        list is re-sorted by tag. */
    method AddComponent(kind: ComponentType, data: P) returns (h: ComponentHandle<P>)
      requires Valid()
      modifies this
      ensures Valid()
      ensures h.IsValid() <==> IsMultiComponent(kind) || !old(HasComponent(kind))
      // The same condition on tags alone, linking the contract to `AddTag`.
      ensures h.IsValid() <==> Admits(old(Kinds(components)), kind)
      ensures Kinds(components) == AddTag(old(Kinds(components)), kind)
      ensures !h.IsValid() ==> components == old(components)
      ensures forall c :: c in components ==> c in old(components) || fresh(c)
      ensures h.IsValid() ==>
        && fresh(h.target) && h.target.kind == kind && h.target.data == data
        && |components| == |old(components)| + 1
        && multiset(components) == multiset(old(components)) + multiset{h.target}
        && multiset(Kinds(components)) == multiset(Kinds(old(components))) + multiset{kind}
        && Ordered(Kinds(components))
        && HasComponent(kind)
      ensures h.IsValid() && !IsMultiComponent(kind) ==> GetComponent(kind) == h
    {
      if !IsMultiComponent(kind) && HasComponent(kind) {
        return DefaultHandle();
      }
      var container := new ComponentContainer(kind, data);
      ghost var before := components;
      components := components + [container];
      assert Kinds(components) == Kinds(before) + [kind];
      components := SortByKind(components);
      h := Handle(container);

      AdmitPreservesSingleInstance(Kinds(before), Kinds(components), kind);
      AddFreshKeepsDistinct(before, components, container);
      assert container in multiset(components);
      forall i | 0 <= i < |components|
        ensures components[i].live
      {
        assert components[i] in multiset(components);
      }
      if !IsMultiComponent(kind) {
        FindSingle(components, container);
      }
      InsertTagOrdered(Kinds(before), kind);
      InsertTagCount(Kinds(before), kind);
      OrderedUnique(Kinds(components), InsertTag(Kinds(before), kind));
    }

    /** Destroys the object: every owned container is deallocated, once, in
        list order, and the list is released. */
    method Dispose()
      requires Valid()
      modifies this, components
      ensures components == []
      ensures forall c :: c in old(components) ==> !c.live
    {
      for i := 0 to |components|
        invariant components == old(components)
        invariant forall j :: 0 <= j < i ==> !components[j].live
        invariant forall j :: i <= j < |components| ==> components[j].live
      {
        forall j | i < j < |components|
          ensures components[j] != components[i]
        {
          if components[j] == components[i] {
            DuplicateCount(components, i, j);
          }
        }
        components[i].Destroy();
      }
      components := [];
    }
  }
}
