/** The demonstration loop's fixed sequence of twelve additions to one game
    object, with the outcome each one is annotated with, the resulting
    component order and the lookups that follow. */
module Demo {
  import opened ComponentTypes
  import opened GameObjects

  /** The two coordinates every demonstration component is built from. */
  datatype Coordinates = Coordinates(x: real, y: real)

  /** The demonstration's twelve additions on tags alone: for each one,
      whether the object accepts it and the tags it then holds in list
      order. Three scripts are accepted; of three colliders, three mesh
      renderers and three transforms only the first of each is. */
  lemma DemoSteps()
    ensures Admits([], Script) && AddTag([], Script) == [Script]
    ensures Admits([Script], Script) && AddTag([Script], Script) == [Script, Script]
    ensures Admits([Script, Script], Script) && AddTag([Script, Script], Script) == [Script, Script, Script]
    ensures Admits([Script, Script, Script], Collider)
    ensures AddTag([Script, Script, Script], Collider) == [Collider, Script, Script, Script]
    ensures !Admits([Collider, Script, Script, Script], Collider)
    ensures Admits([Collider, Script, Script, Script], MeshRenderer)
    ensures AddTag([Collider, Script, Script, Script], MeshRenderer) == [MeshRenderer, Collider, Script, Script, Script]
    ensures !Admits([MeshRenderer, Collider, Script, Script, Script], MeshRenderer)
    ensures Admits([MeshRenderer, Collider, Script, Script, Script], Transform)
    ensures AddTag([MeshRenderer, Collider, Script, Script, Script], Transform)
      == [Transform, MeshRenderer, Collider, Script, Script, Script]
    ensures !Admits([Transform, MeshRenderer, Collider, Script, Script, Script], Transform)
  {
  }

  /** The twelve additions of the demonstration, in order, to an object
      that holds no component yet: three scripts, then a collider, a mesh
      renderer and a transform three times each. `accepted` records which
      gave a valid handle. */
  method Populate(go: GameObject<Coordinates>) returns (accepted: seq<bool>)
    requires go.Valid() && go.components == []
    modifies go
    ensures go.Valid()
    ensures accepted == [true, true, true, true, false, false, true, false, false, true, false, false]
    ensures Kinds(go.components) == [Transform, MeshRenderer, Collider, Script, Script, Script]
  {
    assert Kinds(go.components) == [];
    DemoSteps();
    var h1 := go.AddComponent(Script, Coordinates(1.0, 2.0));
    var h2 := go.AddComponent(Script, Coordinates(1.0, 2.0));
    var h3 := go.AddComponent(Script, Coordinates(1.0, 2.0));
    var h4 := go.AddComponent(Collider, Coordinates(2.0, 3.0));
    var h5 := go.AddComponent(Collider, Coordinates(2.0, 3.0));
    var h6 := go.AddComponent(Collider, Coordinates(2.0, 3.0));
    var h7 := go.AddComponent(MeshRenderer, Coordinates(4.0, 5.0));
    var h8 := go.AddComponent(MeshRenderer, Coordinates(4.0, 5.0));
    var h9 := go.AddComponent(MeshRenderer, Coordinates(4.0, 5.0));
    var h10 := go.AddComponent(Transform, Coordinates(6.0, 7.0));
    var h11 := go.AddComponent(Transform, Coordinates(6.0, 7.0));
    var h12 := go.AddComponent(Transform, Coordinates(6.0, 7.0));
    accepted := [h1.IsValid(), h2.IsValid(), h3.IsValid(), h4.IsValid(), h5.IsValid(), h6.IsValid(),
                 h7.IsValid(), h8.IsValid(), h9.IsValid(), h10.IsValid(), h11.IsValid(), h12.IsValid()];
  }

  /** The demonstration's four lookups, on the populated object: a script,
      a collider, a mesh renderer and a transform are each found. */
  method Lookups(go: GameObject<Coordinates>) returns (found: seq<bool>)
    requires Kinds(go.components) == [Transform, MeshRenderer, Collider, Script, Script, Script]
    ensures found == [true, true, true, true]
  {
    ghost var ks := Kinds(go.components);
    assert ks[0] == Transform && ks[1] == MeshRenderer && ks[2] == Collider && ks[3] == Script;
    found := [go.GetComponent(Script).IsValid(), go.GetComponent(Collider).IsValid(),
              go.GetComponent(MeshRenderer).IsValid(), go.GetComponent(Transform).IsValid()];
  }

  /** One pass of the demonstration: twelve additions to a new object, then
      four lookups. `accepted` records which additions gave a valid handle,
      `order` the tags of the components in list order (the order they are
      listed and updated in), `found` whether the lookups of a script, a
      collider, a mesh renderer and a transform succeed. */
  method AddSequence() returns (accepted: seq<bool>, order: seq<ComponentType>, found: seq<bool>)
    ensures accepted == [true, true, true, true, false, false, true, false, false, true, false, false]
    ensures order == [Transform, MeshRenderer, Collider, Script, Script, Script]
    ensures found == [true, true, true, true]
  {
    var go := new GameObject<Coordinates>("game_object_name_1");
    accepted := Populate(go);
    order := Kinds(go.components);
    found := Lookups(go);
  }
}
