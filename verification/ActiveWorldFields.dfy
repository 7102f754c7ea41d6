/**
 The per-world registry of active miniaturization fields.

 The registry keeps two maps keyed by a field's center: the fields themselves,
 and for each one a deferred handle that other parts of the game hold instead
 of the field. Every operation is a pure update returning the new registry.
 A field is seen only through what the registry stores of it: an identity
 standing for the Java object and its center. Whether a field's chunk is
 loaded changes without any call on the registry, so the tick pass reads it
 at tick time through a function the caller supplies.
 */
module ActiveWorldFields {
  import opened Wrappers
  import opened Geometry

  /** A miniaturization field; `id` distinguishes two fields built at one center. */
  datatype Field = Field(id: nat, center: Pos)

  /** A deferred handle to a field: empty, or wrapping the field it was made for. */
  datatype Lazy = EmptyLazy | LazyOf(field: Field)

  /** A chunk coordinate; which chunk a position lies in is supplied by the caller. */
  datatype ChunkPos = ChunkPos(x: int, z: int)

  datatype Registry = Registry(fields: map<Pos, Field>, laziness: map<Pos, Lazy>)

  /**
   The registry's invariant: both maps have the same keys, every field is
   stored under its own center, and every handle wraps the field stored
   beside it.
   */
  predicate Valid(r: Registry)
  {
    && r.fields.Keys == r.laziness.Keys
    && forall c :: c in r.fields ==>
         r.fields[c].center == c && r.laziness[c] == LazyOf(r.fields[c])
  }

  // ---------------------------------------------------------------------------
  // Queries

  /** The field registered at `center`, if any. */
  function Get(r: Registry, center: Pos): (o: Option<Field>)
    ensures o.Some? <==> center in r.fields
    ensures o.Some? ==> o.value == r.fields[center]
    ensures Valid(r) && o.Some? ==> o.value.center == center
  {
    if center in r.fields then Some(r.fields[center]) else None
  }

  /** Whether some field is registered at `center`. */
  function HasActiveField(r: Registry, center: Pos): (b: bool)
    ensures b <==> Get(r, center).Some?
  {
    center in r.fields
  }

  /** The deferred handle kept for `center`, or the empty handle. */
  function GetLazy(r: Registry, center: Pos): (h: Lazy)
    ensures center !in r.laziness ==> h == EmptyLazy
    ensures Valid(r) ==> (h.LazyOf? <==> HasActiveField(r, center))
    ensures Valid(r) && h.LazyOf? ==> Get(r, center) == Some(h.field)
  {
    if center in r.laziness then r.laziness[center] else EmptyLazy
  }

  /** Every registered field. */
  function AllFields(r: Registry): (fs: set<Field>)
    ensures forall f :: f in fs <==> exists c :: c in r.fields && r.fields[c] == f
    ensures Valid(r) ==> forall f :: f in fs <==> Get(r, f.center) == Some(f)
  {
    r.fields.Values
  }

  /** The registered fields whose center lies in `chunk`. */
  function FieldsInChunk(r: Registry, chunk: ChunkPos, chunkOf: Pos -> ChunkPos): (fs: set<Field>)
    ensures forall f :: f in fs <==> exists c :: c in r.fields && r.fields[c] == f && chunkOf(c) == chunk
    ensures Valid(r) ==> forall f :: f in fs <==> f in AllFields(r) && chunkOf(f.center) == chunk
  {
    set c | c in r.fields && chunkOf(c) == chunk :: r.fields[c]
  }

  /** The chunk filter splits the registered fields by the chunk of their center. */
  lemma ChunksPartitionFields(r: Registry, chunkOf: Pos -> ChunkPos, f: Field, chunk: ChunkPos)
    requires Valid(r)
    requires f in AllFields(r)
    ensures f in FieldsInChunk(r, chunkOf(f.center), chunkOf)
    ensures f in FieldsInChunk(r, chunk, chunkOf) ==> chunk == chunkOf(f.center)
  {
  }

  // ---------------------------------------------------------------------------
  // Updates

  /** A registry with no fields. */
  function NewRegistry(): (r: Registry)
    ensures Valid(r)
    ensures forall c :: !HasActiveField(r, c) && GetLazy(r, c) == EmptyLazy
    ensures AllFields(r) == {}
  {
    Registry(map[], map[])
  }

  /**
   Registers `f` at its center with a fresh handle; a field already at that
   center is replaced.
   */
  function RegisterField(r: Registry, f: Field): (r': Registry)
    ensures Get(r', f.center) == Some(f)
    ensures HasActiveField(r', f.center)
    ensures GetLazy(r', f.center) == LazyOf(f)
    ensures forall c :: c != f.center ==> Get(r', c) == Get(r, c) && GetLazy(r', c) == GetLazy(r, c)
    ensures Valid(r) ==> Valid(r')
  {
    Registry(r.fields[f.center := f], r.laziness[f.center := LazyOf(f)])
  }

  /** Removes whatever is registered at `center` from both maps. */
  function UnregisterAt(r: Registry, center: Pos): (r': Registry)
    ensures !HasActiveField(r', center) && GetLazy(r', center) == EmptyLazy
    ensures forall c :: c != center ==> Get(r', c) == Get(r, c) && GetLazy(r', c) == GetLazy(r, c)
    ensures center !in r.fields && center !in r.laziness ==> r' == r
    ensures Valid(r) ==> Valid(r')
  {
    Registry(r.fields - {center}, r.laziness - {center})
  }

  /** Removes a field by the center it reports. */
  function UnregisterField(r: Registry, f: Field): (r': Registry)
    ensures r' == UnregisterAt(r, f.center)
  {
    UnregisterAt(r, f.center)
  }

  /**
   What the registry does when a handle it gave out is invalidated: if the
   handle still holds its field, that field is unregistered by its center.
   */
  function Invalidate(r: Registry, h: Lazy): (r': Registry)
    ensures h.LazyOf? ==> !HasActiveField(r', h.field.center) && GetLazy(r', h.field.center) == EmptyLazy
    ensures h.LazyOf? ==> r' == UnregisterAt(r, h.field.center)
    ensures h.EmptyLazy? ==> r' == r
    ensures Valid(r) ==> Valid(r')
  {
    match h
    case EmptyLazy => r
    case LazyOf(f) => UnregisterField(r, f)
  }

  // ---------------------------------------------------------------------------
  // Properties relating several calls

  /** Registering and then unregistering at the same center leaves nothing behind. */
  lemma RegisterThenUnregister(r: Registry, f: Field)
    ensures Get(UnregisterField(RegisterField(r, f), f), f.center) == None
    ensures GetLazy(UnregisterField(RegisterField(r, f), f), f.center) == EmptyLazy
  {
  }

  /** Registering at a free center and unregistering it gives back the registry. */
  lemma RegisterUnregisterRoundTrip(r: Registry, f: Field)
    requires Valid(r)
    requires !HasActiveField(r, f.center)
    ensures UnregisterAt(RegisterField(r, f), f.center) == r
  {
    var r' := UnregisterAt(RegisterField(r, f), f.center);
    assert r'.fields == r.fields;
    assert r'.laziness == r.laziness;
  }

  /** Two registrations at one center: the later one wins outright. */
  lemma LastRegistrationWins(r: Registry, f: Field, g: Field)
    requires f.center == g.center
    ensures RegisterField(RegisterField(r, f), g) == RegisterField(r, g)
  {
  }

  /** Unregistering twice is the same as unregistering once. */
  lemma UnregisterIdempotent(r: Registry, center: Pos)
    ensures UnregisterAt(UnregisterAt(r, center), center) == UnregisterAt(r, center)
  {
  }

  /** Invalidating the handle handed out for a center removes that center from both maps. */
  lemma InvalidatingHandleUnregisters(r: Registry, center: Pos)
    requires Valid(r)
    requires HasActiveField(r, center)
    ensures Invalidate(r, GetLazy(r, center)) == UnregisterAt(r, center)
  {
  }

  /**
   A handle outlives its field being replaced: invalidating the handle of a
   field that has since been replaced at the same center removes the
   replacement, because the removal goes by center.
   */
  lemma StaleHandleRemovesReplacement(r: Registry, f: Field, g: Field)
    requires f.center == g.center
    ensures var h := GetLazy(RegisterField(r, f), f.center);
            !HasActiveField(Invalidate(RegisterField(RegisterField(r, f), g), h), g.center)
  {
  }

  // ---------------------------------------------------------------------------
  // Reachable registries

  /** One call on the registry. */
  datatype Op =
    | Register(f: Field)
    | UnregisterCenter(center: Pos)
    | UnregisterFieldOp(field: Field)
    | InvalidateHandle(h: Lazy)

  function Step(r: Registry, op: Op): (r': Registry)
    ensures Valid(r) ==> Valid(r')
  {
    match op
    case Register(f) => RegisterField(r, f)
    case UnregisterCenter(c) => UnregisterAt(r, c)
    case UnregisterFieldOp(f) => UnregisterField(r, f)
    case InvalidateHandle(h) => Invalidate(r, h)
  }

  /** The registry after the calls `ops`, in order. */
  function Run(r: Registry, ops: seq<Op>): (r': Registry)
    ensures Valid(r) ==> Valid(r')
    decreases |ops|
  {
    if |ops| == 0 then r else Run(Step(r, ops[0]), ops[1..])
  }

  /** Whatever calls are made on a new registry, the registry stays valid. */
  lemma ReachableRegistriesAreValid(ops: seq<Op>)
    ensures Valid(Run(NewRegistry(), ops))
  {
  }

  // ---------------------------------------------------------------------------
  // Ticking

  /** The registered fields whose chunk is loaded at this moment. */
  function LoadedFields(r: Registry, isLoaded: Field -> bool): (fs: set<Field>)
    ensures forall f :: f in fs <==> f in AllFields(r) && isLoaded(f)
  {
    set f | f in r.fields.Values && isLoaded(f)
  }

  /**
   One tick pass: collects the loaded fields and ticks each of them once, in
   the order returned. When no field is loaded nothing is ticked. The
   registry is read, never changed.
   */
  method TickFields(r: Registry, isLoaded: Field -> bool) returns (ticked: seq<Field>)
    ensures forall f :: f in ticked <==> f in AllFields(r) && isLoaded(f)
    ensures forall i, j :: 0 <= i < j < |ticked| ==> ticked[i] != ticked[j]
    ensures (forall c :: c in r.fields ==> !isLoaded(r.fields[c])) ==> ticked == []
  {
    var loaded := LoadedFields(r, isLoaded);
    ticked := [];
    if loaded == {} {
      return;
    }
    var pending := loaded;
    while pending != {}
      invariant pending <= loaded
      invariant forall f :: f in ticked <==> f in loaded - pending
      invariant forall i, j :: 0 <= i < j < |ticked| ==> ticked[i] != ticked[j]
      decreases pending
    {
      var f :| f in pending;
      assert f !in ticked;
      ticked := ticked + [f];
      pending := pending - {f};
    }
  }
}
