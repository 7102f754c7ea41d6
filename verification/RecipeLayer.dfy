/**
 A recipe layer made of a single component, and the predicate that decides
 whether one horizontal slice of a miniaturization field satisfies it.

 The world is seen through a finite map from position to block state: a
 position that is not a key of the map is air. Block states are opaque and
 compared only for equality. Of a recipe the layer needs nothing but the
 lookup from component key to the block state that key requires.
 */
module RecipeLayer {
  import opened Wrappers
  import opened Geometry

  /** A concrete block state; only its identity matters. */
  datatype BlockState = BlockState(id: string)

  /** The blocks of the world: positions missing from the map are air. */
  type WorldView = map<Pos, BlockState>

  /** The part of a miniaturization recipe a layer consults. */
  datatype Recipe = Recipe(components: map<string, BlockState>) {

    /** The block state the recipe requires for `key`, if it defines one. */
    function GetRecipeComponent(key: string): (r: Option<BlockState>)
      ensures r.Some? <==> key in components
      ensures r.Some? ==> r.value == components[key]
    {
      if key in components then Some(components[key]) else None
    }
  }

  /**
   A layer filled by one component: the key naming the component, the
   layer-relative positions it occupies, and the dimensions computed when the
   layer is built.
   */
  datatype Layer = Layer(componentKey: string, filledPositions: set<Pos>, dimensions: Pos)

  /** The dimensions a single-component layer is given, whatever it holds. */
  const UnitDimensions: Pos := Pos(1, 1, 1)

  /** Builds a layer; its dimensions do not depend on the filled positions. */
  function NewLayer(key: string, filled: set<Pos>): (l: Layer)
    ensures l.componentKey == key && l.filledPositions == filled
    ensures l.dimensions.x == 1 && l.dimensions.y == 1 && l.dimensions.z == 1
  {
    Layer(key, filled, UnitDimensions)
  }

  /** The layer's dimensions; a layer built by `NewLayer` is always 1 by 1 by 1. */
  function GetDimensions(l: Layer): (d: Pos)
    ensures l == NewLayer(l.componentKey, l.filledPositions) ==> d == Pos(1, 1, 1)
  {
    l.dimensions
  }

  /** Every layer built by `NewLayer` reports the same unit dimensions. */
  lemma ConstructedDimensions(key: string, filled: set<Pos>, other: set<Pos>)
    ensures GetDimensions(NewLayer(key, filled)) == Pos(1, 1, 1)
    ensures GetDimensions(NewLayer(key, filled)) == GetDimensions(NewLayer(key, other))
  {
  }

  /** The layer's offset from the recipe origin: moving by it moves nothing. */
  function GetRelativeOffset(l: Layer): (r: Pos)
    ensures forall p :: Add(p, r) == p
  {
    Origin
  }

  /** The layer's volume, the product of its dimensions, keyed by its one component. */
  function GetComponentTotals(l: Layer): (totals: map<string, int>)
    ensures totals.Keys == {l.componentKey}
    ensures totals[l.componentKey] == l.dimensions.x * l.dimensions.y * l.dimensions.z
  {
    var volume := l.dimensions.x * l.dimensions.y * l.dimensions.z;
    map[l.componentKey := volume]
  }

  /** A layer as built reports a total of 1 for its component, whatever positions it fills. */
  lemma ConstructedComponentTotals(key: string, filled: set<Pos>)
    ensures GetComponentTotals(NewLayer(key, filled)) == map[key := 1]
  {
  }

  // ---------------------------------------------------------------------------
  // Matching

  /** The positions inside `slice` that are not air. */
  function NonAirPositions(world: WorldView, slice: Box): (ps: set<Pos>)
    ensures forall p :: p in ps <==> p in world && slice.Contains(p)
  {
    set p | p in world && slice.Contains(p)
  }

  /** The distinct block states found at `ps`. */
  function DistinctStates(world: WorldView, ps: set<Pos>): (states: set<BlockState>)
    requires ps <= world.Keys
    ensures forall p :: p in ps ==> world[p] in states
    ensures forall s :: s in states ==> exists p :: p in ps && world[p] == s
  {
    set p | p in ps :: world[p]
  }

  /** Each position of `ps` made relative to `corner`. */
  function Normalize(ps: set<Pos>, corner: Pos): (rel: set<Pos>)
    ensures forall p :: p in ps ==> Sub(p, corner) in rel
    ensures forall q :: q in rel ==> exists p :: p in ps && q == Sub(p, corner)
  {
    set p | p in ps :: Sub(p, corner)
  }

  /**
   Whether the slice satisfies the layer, in the order the game decides it:
   the component key must resolve in the recipe; the slice must be at least as
   wide as the layer along X and Z; every non-air block must be the required
   state; and every non-air position, relative to the slice's minimum corner,
   must be one of the layer's filled positions.
   */
  predicate MatchesFieldLayer(l: Layer, world: WorldView, recipe: Recipe, slice: Box): (ok: bool)
    ensures ok ==> l.componentKey in recipe.components && FitsSize(l, slice)
    ensures ok ==> EveryBlockFits(l, world, recipe.components[l.componentKey], slice)
  {
    match recipe.GetRecipeComponent(l.componentKey)
    case None => false
    case Some(required) =>
      if l.dimensions.x > slice.xSize || l.dimensions.z > slice.zSize then false
      else if StreamChecksPass(l, world, required, slice) then
        StreamChecksSound(l, world, required, slice);
        true
      else false
  }

  /** The slice is large enough for the layer along X and Z. */
  predicate FitsSize(l: Layer, slice: Box)
  {
    l.dimensions.x <= slice.xSize && l.dimensions.z <= slice.zSize
  }

  /**
   The pointwise reading of a match: every non-air block inside the slice is
   the component's state and sits on a filled position of the template.
   */
  ghost predicate EveryBlockFits(l: Layer, world: WorldView, required: BlockState, slice: Box)
  {
    forall p :: p in world && slice.Contains(p) ==>
      world[p] == required && Sub(p, slice.min) in l.filledPositions
  }

  /** The two stream checks that follow the size check. */
  predicate StreamChecksPass(l: Layer, world: WorldView, required: BlockState, slice: Box)
  {
    var occupied := NonAirPositions(world, slice);
    && !(exists s :: s in DistinctStates(world, occupied) && s != required)
    && Normalize(occupied, slice.min) <= l.filledPositions
  }

  lemma StreamChecksSound(l: Layer, world: WorldView, required: BlockState, slice: Box)
    requires StreamChecksPass(l, world, required, slice)
    ensures EveryBlockFits(l, world, required, slice)
  {
    var occupied := NonAirPositions(world, slice);
    forall p | p in world && slice.Contains(p)
      ensures world[p] == required && Sub(p, slice.min) in l.filledPositions
    {
      assert p in occupied;
      assert world[p] in DistinctStates(world, occupied);
    }
  }

  lemma StreamChecksComplete(l: Layer, world: WorldView, required: BlockState, slice: Box)
    requires EveryBlockFits(l, world, required, slice)
    ensures StreamChecksPass(l, world, required, slice)
  {
    var occupied := NonAirPositions(world, slice);
    var rel := Normalize(occupied, slice.min);
    forall q | q in rel ensures q in l.filledPositions {
      SubAdd(q, slice.min);
    }
  }

  /** The stream form of the match agrees with the pointwise reading, both ways. */
  lemma MatchesFieldLayerIff(l: Layer, world: WorldView, recipe: Recipe, slice: Box)
    ensures MatchesFieldLayer(l, world, recipe, slice) <==>
      && l.componentKey in recipe.components
      && FitsSize(l, slice)
      && EveryBlockFits(l, world, recipe.components[l.componentKey], slice)
  {
    if l.componentKey in recipe.components && FitsSize(l, slice) {
      var required := recipe.components[l.componentKey];
      assert MatchesFieldLayer(l, world, recipe, slice) == StreamChecksPass(l, world, required, slice);
      if StreamChecksPass(l, world, required, slice) {
        StreamChecksSound(l, world, required, slice);
      }
      if EveryBlockFits(l, world, required, slice) {
        StreamChecksComplete(l, world, required, slice);
      }
    }
  }

  // ---------------------------------------------------------------------------
  // The early exits, one by one

  /** A key the recipe does not define fails the match, whatever the world holds. */
  lemma MissingComponentNeverMatches(l: Layer, world: WorldView, recipe: Recipe, slice: Box)
    requires l.componentKey !in recipe.components
    ensures !MatchesFieldLayer(l, world, recipe, slice)
  {
  }

  /** A slice narrower than the layer along X or Z never matches. */
  lemma UndersizedSliceNeverMatches(l: Layer, world: WorldView, recipe: Recipe, slice: Box)
    requires slice.xSize < l.dimensions.x || slice.zSize < l.dimensions.z
    ensures !MatchesFieldLayer(l, world, recipe, slice)
  {
  }

  /** One block of a state other than the component's fails the match. */
  lemma ForeignBlockRejects(l: Layer, world: WorldView, recipe: Recipe, slice: Box, p: Pos)
    requires l.componentKey in recipe.components
    requires p in world && slice.Contains(p)
    requires world[p] != recipe.components[l.componentKey]
    ensures !MatchesFieldLayer(l, world, recipe, slice)
  {
    MatchesFieldLayerIff(l, world, recipe, slice);
  }

  /** One block off the template fails the match, even of the right state. */
  lemma StrayBlockRejects(l: Layer, world: WorldView, recipe: Recipe, slice: Box, p: Pos)
    requires p in world && slice.Contains(p)
    requires Sub(p, slice.min) !in l.filledPositions
    ensures !MatchesFieldLayer(l, world, recipe, slice)
  {
    MatchesFieldLayerIff(l, world, recipe, slice);
  }

  /** A slice holding only air matches once the key resolves and the size fits. */
  lemma AllAirSliceMatches(l: Layer, world: WorldView, recipe: Recipe, slice: Box)
    requires l.componentKey in recipe.components
    requires FitsSize(l, slice)
    requires forall p :: p in world ==> !slice.Contains(p)
    ensures MatchesFieldLayer(l, world, recipe, slice)
  {
    MatchesFieldLayerIff(l, world, recipe, slice);
  }

  /**
   The template is only an upper bound on the blocks: a slice whose one block
   sits on the template's origin matches, however many other positions the
   template fills.
   */
  lemma ContainmentNotEquality(l: Layer, world: WorldView, recipe: Recipe, slice: Box, other: Pos)
    requires l.componentKey in recipe.components
    requires FitsSize(l, slice)
    requires NonAirPositions(world, slice) == {slice.min}
    requires world[slice.min] == recipe.components[l.componentKey]
    requires Origin in l.filledPositions
    requires other in l.filledPositions && other != Origin
    ensures MatchesFieldLayer(l, world, recipe, slice)
    ensures Normalize(NonAirPositions(world, slice), slice.min) != l.filledPositions
  {
    var occupied := NonAirPositions(world, slice);
    NormalizeSingleton(slice.min, slice.min);
    assert Sub(slice.min, slice.min) == Origin;
    assert other !in Normalize(occupied, slice.min);
    assert EveryBlockFits(l, world, recipe.components[l.componentKey], slice) by {
      forall p | p in world && slice.Contains(p)
        ensures world[p] == recipe.components[l.componentKey] && Sub(p, slice.min) in l.filledPositions
      {
        assert p in occupied;
      }
    }
    MatchesFieldLayerIff(l, world, recipe, slice);
  }

  lemma NormalizeSingleton(p: Pos, corner: Pos)
    ensures Normalize({p}, corner) == {Sub(p, corner)}
  {
  }

  /**
   Because a built layer is always 1 by 1 by 1, the size check rejects only a
   slice with no extent along X or Z, whatever the template covers.
   */
  lemma SizeCheckIgnoresTemplate(key: string, filled: set<Pos>, slice: Box)
    ensures FitsSize(NewLayer(key, filled), slice) <==> slice.xSize > 0 && slice.zSize > 0
  {
  }

  // ---------------------------------------------------------------------------
  // What a match is stable under

  /** Taking blocks out of a matching slice leaves it matching. */
  lemma RemovingBlocksPreservesMatch(l: Layer, world: WorldView, fewer: WorldView, recipe: Recipe, slice: Box)
    requires fewer.Keys <= world.Keys
    requires forall p :: p in fewer ==> fewer[p] == world[p]
    requires MatchesFieldLayer(l, world, recipe, slice)
    ensures MatchesFieldLayer(l, fewer, recipe, slice)
  {
    MatchesFieldLayerIff(l, world, recipe, slice);
    MatchesFieldLayerIff(l, fewer, recipe, slice);
  }

  /** A template with more filled positions accepts every slice the smaller one did. */
  lemma LargerTemplatePreservesMatch(l: Layer, more: set<Pos>, world: WorldView, recipe: Recipe, slice: Box)
    requires l.filledPositions <= more
    requires MatchesFieldLayer(l, world, recipe, slice)
    ensures MatchesFieldLayer(l.(filledPositions := more), world, recipe, slice)
  {
    MatchesFieldLayerIff(l, world, recipe, slice);
    MatchesFieldLayerIff(l.(filledPositions := more), world, recipe, slice);
  }

  /** The world with every block moved by `v`. */
  function ShiftWorld(world: WorldView, v: Pos): (moved: WorldView)
    ensures forall p :: Add(p, v) in moved <==> p in world
    ensures forall p :: p in world ==> moved[Add(p, v)] == world[p]
  {
    var moved := map q | q in world :: Add(q, v) := world[q];
    assert forall p :: Sub(Add(p, v), v) == p;
    moved
  }

  /** Moving the blocks and the slice together keeps every block fitting. */
  lemma ShiftKeepsBlocksFitting(l: Layer, world: WorldView, required: BlockState, slice: Box, v: Pos)
    requires EveryBlockFits(l, world, required, slice)
    ensures EveryBlockFits(l, ShiftWorld(world, v), required, slice.Shift(v))
  {
    var moved := ShiftWorld(world, v);
    var box := slice.Shift(v);
    forall q | q in moved && box.Contains(q)
      ensures moved[q] == required && Sub(q, box.min) in l.filledPositions
    {
      var p := Sub(q, v);
      SubAdd(q, v);
      assert p in world && slice.Contains(p);
      assert Sub(q, box.min) == Sub(p, slice.min);
    }
  }

  /** Moving them back keeps every block fitting too. */
  lemma UnshiftKeepsBlocksFitting(l: Layer, world: WorldView, required: BlockState, slice: Box, v: Pos)
    requires EveryBlockFits(l, ShiftWorld(world, v), required, slice.Shift(v))
    ensures EveryBlockFits(l, world, required, slice)
  {
    var moved := ShiftWorld(world, v);
    var box := slice.Shift(v);
    forall p | p in world && slice.Contains(p)
      ensures world[p] == required && Sub(p, slice.min) in l.filledPositions
    {
      var q := Add(p, v);
      assert q in moved && box.Contains(q);
      assert Sub(q, box.min) == Sub(p, slice.min);
    }
  }

  /**
   Normalising by the slice's corner makes matching blind to where the slice
   is: moving the blocks and the slice together never changes the verdict.
   */
  lemma MatchIsTranslationInvariant(l: Layer, world: WorldView, recipe: Recipe, slice: Box, v: Pos)
    ensures MatchesFieldLayer(l, ShiftWorld(world, v), recipe, slice.Shift(v))
        == MatchesFieldLayer(l, world, recipe, slice)
  {
    MatchesFieldLayerIff(l, world, recipe, slice);
    MatchesFieldLayerIff(l, ShiftWorld(world, v), recipe, slice.Shift(v));
    if l.componentKey in recipe.components {
      var required := recipe.components[l.componentKey];
      if EveryBlockFits(l, world, required, slice) {
        ShiftKeepsBlocksFitting(l, world, required, slice, v);
      }
      if EveryBlockFits(l, ShiftWorld(world, v), required, slice.Shift(v)) {
        UnshiftKeepsBlocksFitting(l, world, required, slice, v);
      }
    }
  }

  // ---------------------------------------------------------------------------
  // The scan as the game performs it

  /**
   Walks the slice block by block as the game does: collects the non-air
   positions, rejects on the first block of a foreign state, then checks
   every normalised position against the template.
   */
  method ScanFieldLayer(l: Layer, world: WorldView, recipe: Recipe, slice: Box) returns (ok: bool)
    ensures ok <==> MatchesFieldLayer(l, world, recipe, slice)
  {
    var component := recipe.GetRecipeComponent(l.componentKey);
    if component.None? {
      return false;
    }
    var required := component.value;
    if l.dimensions.x > slice.xSize || l.dimensions.z > slice.zSize {
      return false;
    }

    var box := AllInBox(slice);
    var remaining := box;
    var occupied: set<Pos> := {};
    while remaining != {}
      invariant remaining <= box
      invariant forall p :: p in occupied <==> p in box - remaining && p in world
      decreases remaining
    {
      var p :| p in remaining;
      if p in world {
        occupied := occupied + {p};
      }
      remaining := remaining - {p};
    }
    assert occupied == NonAirPositions(world, slice);

    var unchecked := occupied;
    while unchecked != {}
      invariant unchecked <= occupied
      invariant forall p :: p in occupied - unchecked ==> world[p] == required
      decreases unchecked
    {
      var p :| p in unchecked;
      if world[p] != required {
        assert world[p] in DistinctStates(world, occupied);
        return false;
      }
      unchecked := unchecked - {p};
    }

    unchecked := occupied;
    while unchecked != {}
      invariant unchecked <= occupied
      invariant forall p :: p in occupied - unchecked ==> Sub(p, slice.min) in l.filledPositions
      decreases unchecked
    {
      var p :| p in unchecked;
      if Sub(p, slice.min) !in l.filledPositions {
        assert Sub(p, slice.min) in Normalize(occupied, slice.min);
        return false;
      }
      unchecked := unchecked - {p};
    }
    ok := true;
    assert Normalize(occupied, slice.min) <= l.filledPositions by {
      forall q | q in Normalize(occupied, slice.min) ensures q in l.filledPositions {
        SubAdd(q, slice.min);
      }
    }
  }
}
