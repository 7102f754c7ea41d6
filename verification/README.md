# CompactCrafting field core in Dafny

This project models two parts of CompactCrafting, a game modification in which
players build a miniaturization field out of blocks and craft by matching the
field's contents against recipes:

- **Single-component recipe layer** (`RecipeLayer.dfy`). A recipe layer that
  holds one component. It answers whether one horizontal slice of a field
  satisfies the layer. The match runs four checks in order:
  1. the layer's component key must resolve in the recipe;
  2. the slice must be at least as wide as the layer along X and Z;
  3. every non-air block in the slice must be the component's block state;
  4. every non-air position, taken relative to the slice's minimum corner,
     must be one of the layer's filled positions.

  The layer also has small accessors: its dimensions, its relative offset and
  its per-component totals.
- **Active world fields** (`ActiveWorldFields.dfy`). The per-world registry of
  fields. It holds two maps keyed by a field's center: the fields, and a
  deferred handle for each field. It supports:
  - registering a field; a later field at the same center replaces the earlier one;
  - unregistering by center or by field;
  - lookups by center;
  - listing all fields, or the fields in one chunk;
  - a tick pass over the loaded fields.

`Geometry.dfy` holds integer positions and boxes. `Wrappers.dfy` holds `Option`.

Modelling choices:

- The world is a finite map from position to block state. A position that is
  not a key of the map is air.
- Block states are opaque values compared by equality. The game compares them
  by reference.
- A slice is an integer box: a minimum corner plus a size along each axis. It
  holds the positions `min <= p < min + size` on each axis.
- Of a recipe, the layer uses only its map from component key to block state.
- A field is a record of an identity and a center. The identity stands for
  the Java object.
- Whether a field's chunk is loaded is read at tick time, through a function
  the caller passes to the tick pass. It is not stored in the registry, because
  it changes without any call on the registry.
- A deferred handle is either empty or wraps the field it was made for.
- Which chunk holds a position is a function the caller passes in.
- Every operation is a pure function from the old registry to the new one.
  The tick pass returns the fields it ticked, without repeats.

The registry invariant `ActiveWorldFields.Valid` says three things:
- both maps have the same keys;
- every field is stored under its own center;
- every handle wraps the field stored beside it.

Every update preserves `Valid`. `ActiveWorldFields.Run` carries it through any
sequence of calls.

A reader might expect a layer's filled positions to lie inside
`[0, dimensions)`. The code does not keep that: `recalculateDimensions`
(SingleComponentRecipeLayer.java:86-88) fixes a single-component layer's
dimensions at (1, 1, 1), whatever its filled positions are. The model follows
the code. `RecipeLayer.SizeCheckIgnoresTemplate`
shows the consequence: the size check rejects only a slice with no extent
along X or Z.
The component totals (SingleComponentRecipeLayer.java:101-105) likewise
ignore the filled positions: they are the product of the dimensions, so a
constructed layer reports a total of 1 for its component even when it fills
five positions. `RecipeLayer.ConstructedComponentTotals` states this.

## Model

| member | source | states |
|---|---|---|
| `Geometry.AllInBox` | src/main/java/com/robotgryphon/compactcrafting/recipes/SingleComponentRecipeLayer.java:59 | The enumerated positions are exactly those inside the slice. |
| `RecipeLayer.NewLayer` | src/main/java/com/robotgryphon/compactcrafting/recipes/SingleComponentRecipeLayer.java:35-40 | A new layer keeps its key and filled positions, and gets dimensions (1,1,1) whatever it holds. |
| `RecipeLayer.GetDimensions` | src/main/java/com/robotgryphon/compactcrafting/recipes/SingleComponentRecipeLayer.java:91-94 | For a layer as built, the reported dimensions are (1,1,1). |
| `RecipeLayer.ConstructedDimensions` | src/main/java/com/robotgryphon/compactcrafting/recipes/SingleComponentRecipeLayer.java:86-94 | `getDimensions` of any constructed layer is (1,1,1), the same for every filled set. |
| `RecipeLayer.GetRelativeOffset` | src/main/java/com/robotgryphon/compactcrafting/recipes/SingleComponentRecipeLayer.java:96-99 | The offset is the zero vector: adding it to any position changes nothing. |
| `RecipeLayer.GetComponentTotals` | src/main/java/com/robotgryphon/compactcrafting/recipes/SingleComponentRecipeLayer.java:101-105 | The totals are a singleton map from the layer's key to the product of its dimensions; `ConstructedComponentTotals` gives the value 1. |
| `RecipeLayer.ConstructedComponentTotals` | src/main/java/com/robotgryphon/compactcrafting/recipes/SingleComponentRecipeLayer.java:101-105 | A constructed layer's totals are exactly `{key: 1}`, whatever positions it fills, so the total is not the number of filled positions. |
| `RecipeLayer.MatchesFieldLayer` | src/main/java/com/robotgryphon/compactcrafting/recipes/SingleComponentRecipeLayer.java:43-84 | The four checks in the code's order. A match implies the key resolves, the size fits, and every non-air block is the required state on a filled relative position. |
| `RecipeLayer.MatchesFieldLayerIff` | src/main/java/com/robotgryphon/compactcrafting/recipes/SingleComponentRecipeLayer.java:43-84 | A match holds iff the key resolves, the size fits along X and Z, and every non-air block in the slice is the component's state and lies on a filled position. Both directions are proved. |
| `RecipeLayer.MissingComponentNeverMatches` | src/main/java/com/robotgryphon/compactcrafting/recipes/SingleComponentRecipeLayer.java:44-52 | A key the recipe does not define fails the match for every world and slice. |
| `RecipeLayer.UndersizedSliceNeverMatches` | src/main/java/com/robotgryphon/compactcrafting/recipes/SingleComponentRecipeLayer.java:54-56 | A slice narrower than the layer along X or Z never matches. |
| `RecipeLayer.ForeignBlockRejects` | src/main/java/com/robotgryphon/compactcrafting/recipes/SingleComponentRecipeLayer.java:64-71 | One non-air block of another state in the slice fails the match. |
| `RecipeLayer.StrayBlockRejects` | src/main/java/com/robotgryphon/compactcrafting/recipes/SingleComponentRecipeLayer.java:73-83 | One non-air block whose relative position is not filled fails the match. |
| `RecipeLayer.AllAirSliceMatches` | src/main/java/com/robotgryphon/compactcrafting/recipes/SingleComponentRecipeLayer.java:58-83 | A slice that is all air matches once the key resolves and the size fits. |
| `RecipeLayer.ContainmentNotEquality` | src/main/java/com/robotgryphon/compactcrafting/recipes/SingleComponentRecipeLayer.java:82-83 | One block on the template origin matches a template that fills more positions. So the check is containment, not equality. |
| `RecipeLayer.SizeCheckIgnoresTemplate` | src/main/java/com/robotgryphon/compactcrafting/recipes/SingleComponentRecipeLayer.java:54-56 | For a constructed layer the size check passes iff the slice has some extent along X and Z, whatever the template covers. |
| `RecipeLayer.RemovingBlocksPreservesMatch` | src/main/java/com/robotgryphon/compactcrafting/recipes/SingleComponentRecipeLayer.java:82-83 | Removing blocks from a matching slice keeps it matching. |
| `RecipeLayer.LargerTemplatePreservesMatch` | src/main/java/com/robotgryphon/compactcrafting/recipes/SingleComponentRecipeLayer.java:82-83 | A template with more filled positions accepts every slice the smaller template accepted. |
| `RecipeLayer.ShiftWorld` | src/main/java/com/robotgryphon/compactcrafting/recipes/SingleComponentRecipeLayer.java:73-80 | Not a model of a source method: a proof construction used by `MatchIsTranslationInvariant`. It moves every block by `v` and adds no other block, which is the move the normalisation cancels. |
| `RecipeLayer.MatchIsTranslationInvariant` | src/main/java/com/robotgryphon/compactcrafting/recipes/SingleComponentRecipeLayer.java:73-83 | Moving the blocks and the slice by the same vector never changes the verdict. |
| `RecipeLayer.ScanFieldLayer` | src/main/java/com/robotgryphon/compactcrafting/recipes/SingleComponentRecipeLayer.java:43-84 | The block-by-block scan returns true iff the match holds. |
| `ActiveWorldFields.NewRegistry` | src/main/java/com/robotgryphon/compactcrafting/field/ActiveWorldFields.java:27-30 | A new registry satisfies the invariant. It has no field at any center, an empty handle everywhere, and lists no fields. |
| `ActiveWorldFields.Get` | src/main/java/com/robotgryphon/compactcrafting/field/ActiveWorldFields.java:88-91 | Returns a field iff one is registered at the center. Under the invariant, that field's center is the one asked for. |
| `ActiveWorldFields.HasActiveField` | src/main/java/com/robotgryphon/compactcrafting/field/ActiveWorldFields.java:93-96 | True iff `Get` finds a field. |
| `ActiveWorldFields.GetLazy` | src/main/java/com/robotgryphon/compactcrafting/field/ActiveWorldFields.java:84-86 | An unregistered center gives the empty handle. Under the invariant, a handle is non-empty iff a field is registered, and it wraps that field. |
| `ActiveWorldFields.AllFields` | src/main/java/com/robotgryphon/compactcrafting/field/ActiveWorldFields.java:43-46 | Lists exactly the stored fields. Under the invariant, `f` is listed iff `Get(f.center)` returns `f`. |
| `ActiveWorldFields.FieldsInChunk` | src/main/java/com/robotgryphon/compactcrafting/field/ActiveWorldFields.java:98-104 | Lists exactly the registered fields whose center maps to the chunk. |
| `ActiveWorldFields.ChunksPartitionFields` | src/main/java/com/robotgryphon/compactcrafting/field/ActiveWorldFields.java:98-104 | Each registered field is listed for the chunk of its center and for no other chunk. |
| `ActiveWorldFields.RegisterField` | src/main/java/com/robotgryphon/compactcrafting/field/ActiveWorldFields.java:60-67 | After registering `f`, `get` and `getLazy` at `f.center` return `f` and its handle. Every other center is unchanged. The invariant is preserved. |
| `ActiveWorldFields.UnregisterAt` | src/main/java/com/robotgryphon/compactcrafting/field/ActiveWorldFields.java:74-77 | Removes the center from both maps and leaves every other center unchanged. It is a no-op on an absent center and preserves the invariant. |
| `ActiveWorldFields.UnregisterField` | src/main/java/com/robotgryphon/compactcrafting/field/ActiveWorldFields.java:79-82 | Has exactly the effect of unregistering the field's center. |
| `ActiveWorldFields.Invalidate` | src/main/java/com/robotgryphon/compactcrafting/field/ActiveWorldFields.java:69-71 | Invalidating a non-empty handle has exactly the effect of unregistering its field's center, so every other center is unchanged. An empty handle changes nothing. The invariant is preserved. |
| `ActiveWorldFields.RegisterThenUnregister` | src/main/java/com/robotgryphon/compactcrafting/field/ActiveWorldFields.java:60-82 | After register then unregister of a field, `get` gives nothing and `getLazy` gives the empty handle at its center. |
| `ActiveWorldFields.RegisterUnregisterRoundTrip` | src/main/java/com/robotgryphon/compactcrafting/field/ActiveWorldFields.java:60-77 | Registering at a free center and then unregistering that center gives back the original registry. |
| `ActiveWorldFields.LastRegistrationWins` | src/main/java/com/robotgryphon/compactcrafting/field/ActiveWorldFields.java:64-67 | Registering `f` and then `g` at the same center equals registering `g` alone. |
| `ActiveWorldFields.UnregisterIdempotent` | src/main/java/com/robotgryphon/compactcrafting/field/ActiveWorldFields.java:74-77 | Unregistering a center twice equals unregistering it once. |
| `ActiveWorldFields.InvalidatingHandleUnregisters` | src/main/java/com/robotgryphon/compactcrafting/field/ActiveWorldFields.java:66-77 | Invalidating the handle kept for a registered center removes that center from both maps. |
| `ActiveWorldFields.StaleHandleRemovesReplacement` | src/main/java/com/robotgryphon/compactcrafting/field/ActiveWorldFields.java:60-82 | Invalidating the handle of a field that was since replaced at its center removes the replacement. |
| `ActiveWorldFields.Step` | src/main/java/com/robotgryphon/compactcrafting/field/ActiveWorldFields.java:60-82 | Every registry call preserves the invariant. |
| `ActiveWorldFields.Run` | src/main/java/com/robotgryphon/compactcrafting/field/ActiveWorldFields.java:60-82 | Any sequence of registry calls preserves the invariant. |
| `ActiveWorldFields.ReachableRegistriesAreValid` | src/main/java/com/robotgryphon/compactcrafting/field/ActiveWorldFields.java:27-82 | Every registry reachable from a new one satisfies the invariant, so its two maps keep the same key set. |
| `ActiveWorldFields.TickFields` | src/main/java/com/robotgryphon/compactcrafting/field/ActiveWorldFields.java:48-58 | Ticks exactly once each registered field that is loaded at tick time, and nothing else. It ticks nothing when no field is loaded. The registry is an immutable input, so neither map changes. |

## Left out

- Logging: the warning for an unresolved key and the trace line in the tick pass. Neither changes the registry or the layer.
- The world reference: the constructor that takes a world, `setLevel`, and the world handed to each field on registration. The world is a game object outside this model.
- TickFields: assumes a world has been set. The tick pass reads the world's dimension for its trace line (ActiveWorldFields.java:56). With no world set, as after the no-argument constructor (ActiveWorldFields.java:26-29) until `setLevel` is called, it throws before ticking anything once some field is loaded.
- What a field does when ticked. Field internals are not part of this model, so the tick pass returns the fields it ticked.
- Handle validity. `unregisterField` (ActiveWorldFields.java:74-77) drops the handle from the map but never invalidates it, so a handle given out earlier still yields the removed field. `Lazy` has no validity state, so the model cannot express this.
- Forge's `LazyOptional` semantics. `Invalidate` assumes the invalidation listener runs while the handle still holds its field. This is an open risk: if `LazyOptional` clears its value before it notifies listeners, `ifPresent` at ActiveWorldFields.java:70 never fires, and `Invalidate` models an unregistration the game does not perform. The model also does not say when the game invalidates a handle.
- Aliasing of the filled-position set. The constructor (SingleComponentRecipeLayer.java:37) keeps the caller's set by reference, so changing that set later changes the template. `NewLayer` keeps a value.
- The exact bounds of the game's box enumeration and the floating-point sizes of its bounding boxes. A slice is an integer box with half-open bounds.
- Chunk coordinate arithmetic. The caller passes in the function from a position to its chunk.
- Reference identity of block states. States are compared by value.
- The recipe-browser integration (the JEI category). It is display code with no matching logic.
- The full recipe and field classes. Only the key-to-state lookup of a recipe, and the identity, center and loaded state of a field, are modelled.
- Iteration order: the model fixes no order for the fields in a tick pass or a listing.
