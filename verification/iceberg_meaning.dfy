/** What an Iceberg database has after its options were applied, field by field of the
    block in internal/resources/database_iceberg.go. */
module IcebergMeaning {
  import opened Wrappers
  import opened Tf
  import opened Iceberg
  import opened IcebergRuns

  predicate HasText(live: Options, k: Key, a: Attr<string>) {
    Lookup(live, k) == if a.Known? then Some(Text(a.value)) else None
  }

  predicate HasFlag(live: Options, k: Key, a: Attr<bool>) {
    Lookup(live, k) == if a.Known? then Some(Flag(a.value)) else None
  }

  predicate HasTexts(live: Options, m: Model) {
    && HasText(live, Secret, m.secret)
    && HasText(live, DefaultSchema, m.defaultSchema)
    && HasText(live, Endpoint, m.endpoint)
    && HasText(live, Warehouse, m.warehouse)
    && HasText(live, EndpointType, m.endpointType)
    && HasText(live, DefaultRegion, m.defaultRegion)
    && HasText(live, AccessDelegationMode, m.accessDelegationMode)
    && HasText(live, MaxTableStaleness, m.maxTableStaleness)
  }

  /** READ_ONLY is left to its callers; ENCODE_ENTIRE_PREFIX is there only if it is on. */
  predicate HasFlags(live: Options, m: Model) {
    && HasFlag(live, StageCreateTables, m.stageCreateTables)
    && HasFlag(live, SkipCreateTableMetadataUpdates, m.skipCreateTableMetadataUpdates)
    && HasFlag(live, DisableMultiTableCommit, m.disableMultiTableCommit)
    && HasFlag(live, RemoveFilesOnDelete, m.removeFilesOnDelete)
    && HasFlag(live, PurgeRequested, m.purgeRequested)
    && HasFlag(live, SupportNestedNamespaces, m.supportNestedNamespaces)
    && Lookup(live, EncodeEntirePrefix) == if m.encodeEntirePrefix == Known(true) then Some(Flag(true)) else None
  }

  predicate HasBlock(live: Options, m: Model) {
    HasTexts(live, m) && HasFlags(live, m) && HasFlag(live, ReadOnly, m.readOnly)
  }

  /** READ_ONLY unset and off are the same. */
  predicate MeansBlock(live: Options, m: Model) {
    && HasTexts(live, m) && HasFlags(live, m)
    && (Lookup(live, ReadOnly) == Some(Flag(true)) <==> m.readOnly == Known(true))
  }

  lemma TextsAt(live: Options, m: Model)
    requires forall k: Key :: IsString(k) ==> Lookup(live, k) == Wanted(m, k)
    ensures HasTexts(live, m)
  {
    hide Lookup;
  }

  lemma FlagsAt(live: Options, m: Model)
    requires forall k: Key :: !IsString(k) && !k.ReadOnly? ==> Lookup(live, k) == Wanted(m, k)
    ensures HasFlags(live, m)
  {
    hide Lookup;
  }

  lemma TextAt(live: Options, m: Model, k: Key)
    requires HasTexts(live, m) && IsString(k)
    ensures Lookup(live, k) == Wanted(m, k)
  {
    hide Lookup;
  }

  lemma FlagAt(live: Options, m: Model, k: Key)
    requires HasFlags(live, m) && !IsString(k) && !k.ReadOnly?
    ensures Lookup(live, k) == Wanted(m, k)
  {
    hide Lookup;
  }

  lemma HasBlockIff(live: Options, m: Model)
    ensures HasBlock(live, m) <==> live == Effective(m)
  {
    hide HasTexts, HasFlags, Lookup, Effective, IsString;
    assert HasFlag(live, ReadOnly, m.readOnly) <==> Lookup(live, ReadOnly) == Wanted(m, ReadOnly) by { ReadOnlyIs(m); }
    hide Wanted;
    forall k: Key ensures Lookup(Effective(m), k) == Wanted(m, k) {
      EffectiveAt(m, k);
    }
    if HasBlock(live, m) {
      forall k: Key ensures Lookup(live, k) == Lookup(Effective(m), k) {
        if IsString(k) {
          TextAt(live, m, k);
        } else if !k.ReadOnly? {
          FlagAt(live, m, k);
        }
      }
      SameLookups(live, Effective(m));
    }
    if live == Effective(m) {
      TextsAt(live, m);
      FlagsAt(live, m);
    }
  }

  lemma ReadOnlyIs(m: Model)
    ensures Wanted(m, ReadOnly) == if m.readOnly.Known? then Some(Flag(m.readOnly.value)) else None
  {
  }

  lemma ReadOnlyAt(live: Options, m: Model)
    requires Norm(ReadOnly, Lookup(live, ReadOnly)) == Norm(ReadOnly, Wanted(m, ReadOnly))
    ensures Lookup(live, ReadOnly) == Some(Flag(true)) <==> m.readOnly == Known(true)
  {
    hide Lookup;
  }

  lemma SameMeaningIsTheBlock(live: Options, m: Model)
    requires forall k: Key :: Norm(k, Lookup(live, k)) == Norm(k, Wanted(m, k))
    ensures MeansBlock(live, m)
  {
    hide Lookup, Wanted, HasTexts, HasFlags;
    forall k: Key | !k.ReadOnly? ensures Lookup(live, k) == Wanted(m, k) {
      assert Norm(k, Lookup(live, k)) == Norm(k, Wanted(m, k));
    }
    TextsAt(live, m);
    FlagsAt(live, m);
    ReadOnlyAt(live, m);
  }

  /** CREATE DATABASE leaves the options of the block. */
  lemma CreateSetsTheBlock(m: Model)
    ensures HasBlock(ApplyAll(map[], CreateOptions(m)), m)
  {
    hide Effective, ApplyAll, CreateOptions, HasBlock;
    CreateIsEffective(m);
    HasBlockIff(Effective(m), m);
  }

  /** ALTER DATABASE, over a database with the options of the recorded block, leaves those
      of the planned one, but for the four that identify the catalog. */
  lemma AlterSetsTheBlock(planned: Model, prior: Model, live: Options)
    requires WellFormed(planned) && Recorded(prior) && HasBlock(live, prior)
    ensures HasBlock(ApplyAll(live, AlterAssignments(Some(planned), Some(prior))),
                     planned.(endpoint := prior.endpoint, warehouse := prior.warehouse,
                              endpointType := prior.endpointType, readOnly := prior.readOnly))
  {
    hide Effective, ApplyAll, AlterAssignments, HasBlock, Wanted;
    var target := planned.(endpoint := prior.endpoint, warehouse := prior.warehouse,
                           endpointType := prior.endpointType, readOnly := prior.readOnly);
    HasBlockIff(live, prior);
    AlterReachesThePlan(planned, prior);
    var after := ApplyAll(live, AlterAssignments(Some(planned), Some(prior)));
    forall k: Key ensures Lookup(after, k) == Lookup(Effective(target), k) {
      EffectiveAt(target, k);
      MixedWanted(planned, prior, target, k);
    }
    SameLookups(after, Effective(target));
    HasBlockIff(after, target);
  }

  lemma MixedWanted(planned: Model, prior: Model, target: Model, k: Key)
    requires target == planned.(endpoint := prior.endpoint, warehouse := prior.warehouse,
                                endpointType := prior.endpointType, readOnly := prior.readOnly)
    ensures Wanted(target, k) == Target(planned, prior, k)
  {
  }

  /** A changed block replaces the database exactly if it changes an option that identifies
      the catalog; READ_ONLY unset and off are the same. */
  lemma ReplacesIffIdentityChanges(planned: Model, prior: Model)
    requires Recorded(planned) && Recorded(prior)
    ensures Replaces(planned, prior) <==>
            exists k :: k in {Endpoint, Warehouse, EndpointType, ReadOnly} && Changes(planned, prior, k)
  {
    hide Recorded;
    KnownReadOnly(planned);
    KnownReadOnly(prior);
    IdentityText(planned, prior, Endpoint, planned.endpoint, prior.endpoint);
    IdentityText(planned, prior, Warehouse, planned.warehouse, prior.warehouse);
    IdentityText(planned, prior, EndpointType, planned.endpointType, prior.endpointType);
    assert Changes(planned, prior, ReadOnly) <==> (planned.readOnly == Known(true)) != (prior.readOnly == Known(true));
    hide Changes;
    assert (exists k :: k in {Endpoint, Warehouse, EndpointType, ReadOnly} && Changes(planned, prior, k)) <==>
           || Changes(planned, prior, Endpoint) || Changes(planned, prior, Warehouse)
           || Changes(planned, prior, EndpointType) || Changes(planned, prior, ReadOnly);
  }

  /** The option is set to something else than before. */
  predicate Changes(planned: Model, prior: Model, k: Key) {
    Norm(k, Wanted(planned, k)) != Norm(k, Wanted(prior, k))
  }

  lemma IdentityText(planned: Model, prior: Model, k: Key, a: Attr<string>, b: Attr<string>)
    requires Recorded(planned) && Recorded(prior) && k in {Endpoint, Warehouse, EndpointType}
    requires a == StringValue(planned, k) && b == StringValue(prior, k)
    ensures Changes(planned, prior, k) <==> a != b
  {
    assert !StringValue(planned, k).Unknown? && !StringValue(prior, k).Unknown?;
  }

  lemma KnownReadOnly(m: Model)
    requires Recorded(m)
    ensures !m.readOnly.Unknown?
    ensures Norm(ReadOnly, Wanted(m, ReadOnly)) == if m.readOnly == Known(true) then Some(Flag(true)) else None
  {
    assert !BoolValue(m, ReadOnly).Unknown?;
  }

  /** After a run from creation, with failing ALTERs and reads, the last apply that works
      leaves every option as its block configures it. */
  lemma {:induction false} LatestBlockIsInEffect(first: Model, applies: seq<Apply>, last: Apply)
    requires Recorded(first) && Recorded(last.planned)
    requires forall i :: 0 <= i < |applies| ==> Recorded(applies[i].planned)
    requires NoneIsLost(Create(first), applies)
    requires var d := Run(Create(first), applies); IsReplaced(d, last) || Sent(d, last) == [] || last.alters
    ensures MeansBlock(Change(Run(Create(first), applies), last).live, last.planned)
  {
    hide Recorded, Run, SameMeaning, NoneIsLost, Wanted, Norm, MeansBlock, Change, IsReplaced, Sent;
    LatestConfigurationIsInEffect(first, applies, last);
    var live := Change(Run(Create(first), applies), last).live;
    forall k: Key ensures Norm(k, Lookup(live, k)) == Norm(k, Wanted(last.planned, k)) {
      MeaningAt(live, last.planned, k);
    }
    SameMeaningIsTheBlock(live, last.planned);
  }
}
