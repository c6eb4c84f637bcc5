// The device's live schema and configuration: the operations that inject, replace and
// overwrite schema elements, and the cache of state-dependent schemas.

module DeviceSchema {
  import opened Options
  import opened HashTree
  import opened SchemaLayers
  import opened Configuration
  import opened DeviceRuns

  // What the device tells the distributed system
  datatype Signal =
    | SchemaUpdated(schema: Schema)
    | Changed(update: Config)

  datatype MaxSizeReply = Done | SizesDiffer | PathUnknown | OverwriteRefused

  class Device {
    var parameters: Config
    var staticSchema: Schema
    var injectedSchema: Schema
    var fullSchema: Schema
    var stateDependentSchema: map<string, Schema>
    var signals: seq<Signal>
    ghost var base: Schema

    // After initSchema
    constructor (configuration: Config, declared: Schema)
      ensures parameters == configuration && signals == []
      ensures Layers() == SchemaLayers.Layers.Layers(declared, declared, Empty(), declared)
      ensures Layered(Layers()) && Stacked(Layers()) && CacheCoherent()
    {
      parameters := configuration;
      staticSchema, base, injectedSchema, fullSchema := declared, declared, Empty(), declared;
      stateDependentSchema := map[];
      signals := [];
      new;
      SameIsReflexive(declared);
      MergeEmpty(declared);
    }

    ghost function Layers(): Layers
      reads this
    {
      SchemaLayers.Layers.Layers(staticSchema, base, injectedSchema, fullSchema)
    }

    ghost function Now(): Snapshot
      reads this
    {
      Snapshot(Layers(), parameters)
    }

    ghost predicate CacheCoherent()
      reads this
    {
      forall state :: state in stateDependentSchema ==>
        stateDependentSchema[state] == SubSchema(fullSchema, state)
    }

    // setNoLock: false stands for the exception on a failed validation
    method SetNoLock(update: Config) returns (ok: bool)
      modifies `parameters, `signals
      ensures ok == Accepts(fullSchema, update)
      ensures Steps(old(Now()), Set(update), Now())
      ensures !ok ==> parameters == old(parameters) && signals == old(signals)
      ensures ok ==>
                && parameters == Merge(old(parameters), Validated(fullSchema, update))
                && signals == old(signals) + if Validated(fullSchema, update) == Empty() then []
                                             else [Changed(Validated(fullSchema, update))]
    {
      ok := Accepts(fullSchema, update);
      if !ok {
        return;
      }
      var validated := Validated(fullSchema, update);
      if validated != Empty() {
        parameters := Merge(parameters, validated);
        signals := signals + [Changed(validated)];
      } else {
        MergeEmpty(parameters);
      }
    }

    // Keep the new leaves only
    method StripLeaves(config: Config, leaves: set<Path>) returns (stripped: Config)
      requires [] !in leaves
      ensures Stripped(config, leaves, stripped)
    {
      stripped := config;
      var todo := leaves;
      StrippedNothing(config);
      while todo != {}
        invariant todo <= leaves
        invariant Stripped(config, leaves - todo, stripped)
        decreases |todo|
      {
        var p :| p in todo;
        StripOneMore(config, leaves - todo, stripped, p);
        assert leaves - todo + {p} == leaves - (todo - {p});
        stripped := ErasePath(stripped, p);
        todo := todo - {p};
      }
      assert leaves - todo == leaves;
    }

    method AppendSchema(schema: Schema) returns (ghost added: Config)
      modifies this
      ensures Steps(old(Now()), Change(Append(schema)), Now())
      ensures Layers() == AfterAppend(old(Layers()), schema)
      ensures stateDependentSchema == map[] && CacheCoherent()
      ensures Stripped(Defaults(schema), LeavesOf(old(fullSchema)), added)
      ensures parameters == Merge(old(parameters), added)
      ensures signals == old(signals) + [SchemaUpdated(fullSchema)] + if added == Empty() then [] else [Changed(added)]
    {
      var validated := Defaults(schema);
      stateDependentSchema := map[];
      injectedSchema := Merge(injectedSchema, schema);
      var prevFullSchemaLeaves := LeavesOf(fullSchema);
      fullSchema := Merge(fullSchema, injectedSchema);
      signals := signals + [SchemaUpdated(fullSchema)];
      AppendedFits(old(fullSchema), old(injectedSchema), schema);
      added := SetNewLeaves(validated, prevFullSchemaLeaves, schema, old(fullSchema));
    }

    // The common end of both injections: of the defaults, the new leaves are set.
    method SetNewLeaves(validated: Config, prevFullSchemaLeaves: set<Path>, ghost schema: Schema, ghost previous: Schema)
        returns (ghost added: Config)
      requires validated == Defaults(schema) && prevFullSchemaLeaves == LeavesOf(previous)
      requires NewDefaultsFit(fullSchema, schema, previous)
      modifies `parameters, `signals
      ensures Stripped(Defaults(schema), LeavesOf(previous), added)
      ensures parameters == Merge(old(parameters), added)
      ensures signals == old(signals) + if added == Empty() then [] else [Changed(added)]
    {
      NoRootLeaf(previous);
      var stripped := StripLeaves(validated, prevFullSchemaLeaves);
      added := stripped;
      FittingPasses(fullSchema, added);
      var ok := SetNoLock(stripped);
      assert ok;
    }

    method UpdateSchema(schema: Schema) returns (ghost cleared: Config, ghost added: Config)
      modifies this
      ensures Steps(old(Now()), Change(Update(schema)), Now())
      ensures Layers() == AfterUpdate(old(Layers()), schema)
      ensures stateDependentSchema == map[] && CacheCoherent()
      ensures Cleared(old(parameters), staticSchema, Doomed(staticSchema, old(injectedSchema), schema), cleared)
      ensures Stripped(Defaults(schema), LeavesOf(old(fullSchema)), added)
      ensures parameters == Merge(cleared, added)
      ensures signals == old(signals) + [SchemaUpdated(fullSchema)] + if added == Empty() then [] else [Changed(added)]
    {
      var validated := Defaults(schema);
      ClearInjected(schema);
      cleared := parameters;
      stateDependentSchema := map[];
      var prevFullSchemaLeaves := LeavesOf(fullSchema);
      fullSchema := staticSchema;
      injectedSchema := schema;
      fullSchema := Merge(fullSchema, injectedSchema);
      base := staticSchema;
      signals := signals + [SchemaUpdated(fullSchema)];
      UpdatedFits(staticSchema, schema, old(fullSchema));
      added := SetNewLeaves(validated, prevFullSchemaLeaves, schema, old(fullSchema));
    }

    // The loop of updateSchema that clears previously injected parameters
    method ClearInjected(schema: Schema)
      modifies `parameters
      ensures Cleared(old(parameters), staticSchema, Doomed(staticSchema, injectedSchema, schema), parameters)
    {
      var todo := Paths(injectedSchema);
      ClearedNothing(parameters, staticSchema);
      assert Doomed(staticSchema, injectedSchema, schema) - todo == {};
      while todo != {}
        invariant todo <= Paths(injectedSchema)
        invariant Cleared(old(parameters), staticSchema,
                          Doomed(staticSchema, injectedSchema, schema) - todo, parameters)
        decreases |todo|
      {
        var path :| path in todo;
        ClearNext(old(parameters), staticSchema, injectedSchema, schema, todo, parameters, path);
        if !(Has(staticSchema, path) || Has(schema, path)) {
          EraseAndRestore(path);
        }
        todo := todo - {path};
      }
      assert Doomed(staticSchema, injectedSchema, schema) - {} == Doomed(staticSchema, injectedSchema, schema);
    }

    method EraseAndRestore(path: Path)
      requires path != []
      modifies `parameters
      ensures parameters == Restored(staticSchema, ErasePath(old(parameters), path), path)
    {
      parameters := ErasePath(parameters, path);
      var pos := |path| - 1;
      while pos > 0
        invariant 0 <= pos < |path|
        invariant parameters == ErasePath(old(parameters), path)
        invariant RestoreLength(staticSchema, parameters, path, |path| - 1)
               == RestoreLength(staticSchema, parameters, path, pos)
      {
        var p := path[..pos];
        if Has(staticSchema, p) && !Has(parameters, p) {
          parameters := SetEmpty(parameters, p, ());
          return;
        }
        pos := pos - 1;
      }
    }

    method InternalAppendSchemaMultiMaxSize(paths: seq<Path>, values: seq<nat>, emitFlag: bool)
        returns (reply: MaxSizeReply)
      modifies `fullSchema, `injectedSchema, `stateDependentSchema, `signals, `base
      ensures Steps(old(Now()), Change(MaxSizes(paths, values)), Now())
      ensures old(CacheCoherent()) ==> CacheCoherent()
      ensures reply.SizesDiffer? <==> |paths| != |values|
      ensures reply.PathUnknown? <==> |paths| == |values| && exists p :: p in paths && !Has(old(fullSchema), p)
      ensures reply.SizesDiffer? || reply.PathUnknown? ==> unchanged(this)
      ensures reply.Done? || reply.OverwriteRefused? ==>
                && CheckedUpFront(old(Layers()), paths, values)
                && reply.Done? == AfterMaxSizes(old(Layers()), paths, values).ok
                && Layers() == AfterMaxSizes(old(Layers()), paths, values).layers
                && stateDependentSchema == map[]
      ensures signals == old(signals) + if reply.Done? && emitFlag then [SchemaUpdated(fullSchema)] else []
    {
      if |paths| != |values| {
        return SizesDiffer;
      }
      for i := 0 to |paths|
        invariant forall j :: 0 <= j < i ==> Has(fullSchema, paths[j])
      {
        if !Has(fullSchema, paths[i]) {
          assert paths[i] in paths;
          return PathUnknown;
        }
      }
      stateDependentSchema := map[];
      var index := 0;
      while index < |paths|
        invariant 0 <= index <= |paths|
        invariant staticSchema == old(staticSchema) && signals == old(signals) && stateDependentSchema == map[]
        invariant forall p :: p in paths ==> Has(fullSchema, p)
        invariant AfterMaxSizes(Layers(), paths[index..], values[index..])
               == AfterMaxSizes(old(Layers()), paths, values)
      {
        var ok := OverwriteOne(paths[index], values[index]);
        assert paths[index..][1..] == paths[index + 1..] && values[index..][1..] == values[index + 1..];
        if !ok {
          return OverwriteRefused;
        }
        index := index + 1;
      }
      if emitFlag {
        signals := signals + [SchemaUpdated(fullSchema)];
      }
      return Done;
    }

    // One turn of that loop; false stands for the exception of the overwrite element
    method OverwriteOne(path: Path, value: nat) returns (ok: bool)
      requires Has(fullSchema, path)
      modifies `fullSchema, `injectedSchema, `base
      ensures Layers() == AfterMaxSize(old(Layers()), path, value).layers
      ensures ok == AfterMaxSize(old(Layers()), path, value).ok
      ensures forall p :: Has(fullSchema, p) == Has(old(fullSchema), p)
    {
      MaxSizeKeepsPaths(Layers(), path, value);
      ghost var fixedSize := AttrsAt(fullSchema, path).maxSizeFixed;
      var full := OverwriteMaxSize(fullSchema, path, value);
      fullSchema := full.schema;
      if !Has(injectedSchema, path) && Has(base, path) && !fixedSize {
        base := SetMaxSize(base, path, value);
      }
      if !full.ok {
        return false;
      }
      if Has(injectedSchema, path) {
        var injected := OverwriteMaxSize(injectedSchema, path, value);
        injectedSchema := injected.schema;
        return injected.ok;
      }
      return true;
    }

    // Cached or not, the result is what the current full schema gives for the state.
    method GetStateDependentSchema(state: string) returns (schema: Schema)
      requires CacheCoherent()
      modifies `stateDependentSchema
      ensures schema == SubSchema(fullSchema, state)
      ensures CacheCoherent()
      ensures stateDependentSchema == old(stateDependentSchema)[state := schema]
    {
      if state !in stateDependentSchema {
        stateDependentSchema := stateDependentSchema[state := SubSchema(fullSchema, state)];
      }
      schema := stateDependentSchema[state];
    }
  }

  lemma NoRootLeaf(s: Schema)
    ensures [] !in LeavesOf(s)
  {}

  // One turn of the clearing loop
  lemma ClearNext(before: Config, declared: Schema, injected: Schema, next: Schema, todo: set<Path>, c: Config, path: Path)
    requires path in todo && todo <= Paths(injected)
    requires Cleared(before, declared, Doomed(declared, injected, next) - todo, c)
    ensures path != []
    ensures var after := if Has(declared, path) || Has(next, path) then c
                         else Restored(declared, ErasePath(c, path), path);
            Cleared(before, declared, Doomed(declared, injected, next) - (todo - {path}), after)
  {
    var doomed := Doomed(declared, injected, next);
    PathsAreTips(injected, path);
    if Has(declared, path) || Has(next, path) {
      assert doomed - todo == doomed - (todo - {path});
    } else {
      assert path in doomed && doomed - todo + {path} == doomed - (todo - {path});
      ClearOneMore(before, declared, doomed - todo, c, path);
    }
  }

  // What is left of the defaults passes the validation of the new full schema.
  ghost predicate NewDefaultsFit(full: Schema, schema: Schema, previous: Schema) {
    forall added :: Stripped(Defaults(schema), LeavesOf(previous), added) ==> Fits(full, added)
  }

  lemma UpdatedFits(declared: Schema, schema: Schema, previous: Schema)
    ensures NewDefaultsFit(Merge(declared, schema), schema, previous)
  {
    forall added | Stripped(Defaults(schema), LeavesOf(previous), added)
      ensures Fits(Merge(declared, schema), added)
    {
      AddedFitsFull(schema, declared, previous, added);
    }
  }

  lemma AppendedFits(full: Schema, injected: Schema, schema: Schema)
    ensures NewDefaultsFit(Merge(full, Merge(injected, schema)), schema, full)
  {
    var next := Merge(full, Merge(injected, schema));
    UpdatedFits(injected, schema, full);
    forall added | Stripped(Defaults(schema), LeavesOf(full), added)
      ensures Fits(next, added)
    {
      forall p | Has(added, p)
        ensures Has(next, p) && HasLeaf(next, p) == HasLeaf(added, p)
        ensures HasBranch(next, p) ==> !AttrsAt(next, p).slot
      {
        MergeFind(full, Merge(injected, schema), p);
      }
    }
  }
}
