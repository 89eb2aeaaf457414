/**
 * The flow law factory: a registry from flow law names to creators, a selected
 * ("default") name, and creation of the selected flow law.
 *
 * A creator is a function pointer in the source and may be null; the registry here
 * maps a name to `Some(creator)` or to `None` for a null entry.  Looking a name up
 * with the map's subscript operator inserts a null entry for a name that is absent,
 * and both `SetDefaultType` and `Create` look names up that way.
 */
module FlowLawRegistry {

  /** The flow laws the factory knows how to build. */
  datatype Kind =
    | IsothermalGlen
    | PatersonBudd
    | Gpbld
    | Hooke
    | PatersonBuddCold
    | PatersonBuddWarm
    | GoldsbyKohlstedt

  /** A creator builds a flow law of one kind for a configuration prefix. */
  datatype Creator = Creator(kind: Kind)

  datatype FlowLaw = FlowLaw(kind: Kind, prefix: string)

  datatype Option<T> = None | Some(value: T)

  datatype Result<T> = Success(value: T) | Failure(error: string)

  datatype Status = Ok | Error(message: string)

  // The names the constructor registers.
  const ICE_ISOTHERMAL_GLEN: string := "isothermal_glen"
  const ICE_PB: string := "pb"
  const ICE_GPBLD: string := "gpbld"
  const ICE_HOOKE: string := "hooke"
  const ICE_ARR: string := "arr"
  const ICE_ARRWARM: string := "arrwarm"
  const ICE_GOLDSBY_KOHLSTEDT: string := "goldsby_kohlstedt"

  type Registry = map<string, Option<Creator>>

  /** A name with a non-null creator. */
  predicate Available(laws: Registry, name: string) {
    name in laws && laws[name].Some?
  }

  /** The registry after the constructor's seven registrations, in order. */
  function StandardRegistry(): Registry {
    map[][ICE_ISOTHERMAL_GLEN := Some(Creator(IsothermalGlen))]
         [ICE_PB := Some(Creator(PatersonBudd))]
         [ICE_GPBLD := Some(Creator(Gpbld))]
         [ICE_HOOKE := Some(Creator(Hooke))]
         [ICE_ARR := Some(Creator(PatersonBuddCold))]
         [ICE_ARRWARM := Some(Creator(PatersonBuddWarm))]
         [ICE_GOLDSBY_KOHLSTEDT := Some(Creator(GoldsbyKohlstedt))]
  }

  /** The seven registered names. */
  function StandardNames(): set<string> {
    {ICE_ISOTHERMAL_GLEN, ICE_PB, ICE_GPBLD, ICE_HOOKE, ICE_ARR, ICE_ARRWARM, ICE_GOLDSBY_KOHLSTEDT}
  }

  /**
   * The constructor registers exactly seven distinct names, each with a creator of its
   * own kind, so every one of them can be selected.
   */
  lemma StandardRegistryContents()
    ensures StandardRegistry().Keys == StandardNames() && |StandardRegistry().Keys| == 7
    ensures forall name :: name in StandardRegistry() ==> Available(StandardRegistry(), name)
    ensures StandardRegistry()[ICE_ISOTHERMAL_GLEN] == Some(Creator(IsothermalGlen))
    ensures StandardRegistry()[ICE_PB] == Some(Creator(PatersonBudd))
    ensures StandardRegistry()[ICE_GPBLD] == Some(Creator(Gpbld))
    ensures StandardRegistry()[ICE_HOOKE] == Some(Creator(Hooke))
    ensures StandardRegistry()[ICE_ARR] == Some(Creator(PatersonBuddCold))
    ensures StandardRegistry()[ICE_ARRWARM] == Some(Creator(PatersonBuddWarm))
    ensures StandardRegistry()[ICE_GOLDSBY_KOHLSTEDT] == Some(Creator(GoldsbyKohlstedt))
  {
    NamesAreDistinct();
    assert StandardRegistry().Keys == StandardNames();
  }

  /** The seven names differ from one another. */
  lemma NamesAreDistinct()
    ensures |StandardNames()| == 7
  {
    var two := {ICE_ISOTHERMAL_GLEN, ICE_PB};
    var three := two + {ICE_GPBLD};
    var four := three + {ICE_HOOKE};
    var five := four + {ICE_ARR};
    var six := five + {ICE_ARRWARM};
    assert |two| == 2;
    assert ICE_GPBLD !in two;
    assert ICE_HOOKE !in three;
    assert ICE_ARR !in four;
    assert ICE_ARRWARM !in five;
    assert ICE_GOLDSBY_KOHLSTEDT !in six;
    assert StandardNames() == six + {ICE_GOLDSBY_KOHLSTEDT};
  }

  /**
   * The registry after looking `name` up with the subscript operator: a name that
   * was absent gains a null entry; every entry that was there is kept as it was.
   */
  function Touch(laws: Registry, name: string): (r: Registry)
    ensures r.Keys == laws.Keys + {name}
    ensures forall k :: k in laws ==> r[k] == laws[k]
    ensures name !in laws ==> r[name] == None
  {
    if name in laws then laws else laws[name := None]
  }

  /** A lookup does not change whether any name is available. */
  lemma TouchKeepsAvailability(laws: Registry, name: string, other: string)
    ensures Available(Touch(laws, name), other) <==> Available(laws, other)
  {
    if other != name || name in laws {
      assert other in laws ==> Touch(laws, name)[other] == laws[other];
    }
  }

  /**
   * A failed selection leaves a null entry behind: selecting the same name again
   * fails again, until a creator is registered under it.
   */
  lemma FailedSelectionPersists(laws: Registry, name: string, c: Creator)
    requires !Available(laws, name)
    ensures name in Touch(laws, name) && !Available(Touch(laws, name), name)
    ensures Available(Touch(laws, name)[name := Some(c)], name)
  {
  }

  /** The factory: its registry, the selected name and its configuration prefix. */
  class FlowLawFactory {
    var flowLaws: Registry
    var typeName: string
    const prefix: string

    /** The selected name has a creator. */
    predicate Selected()
      reads this
    {
      Available(flowLaws, typeName)
    }

    /** Registers the seven flow laws; nothing is selected yet. */
    constructor Init(prefix: string)
      requires prefix != []
      ensures this.prefix == prefix
      ensures flowLaws == StandardRegistry()
      ensures typeName == []
    {
      this.prefix := prefix;
      flowLaws := map[];
      typeName := [];
      new;
      AddType(ICE_ISOTHERMAL_GLEN, Some(Creator(IsothermalGlen)));
      AddType(ICE_PB, Some(Creator(PatersonBudd)));
      AddType(ICE_GPBLD, Some(Creator(Gpbld)));
      AddType(ICE_HOOKE, Some(Creator(Hooke)));
      AddType(ICE_ARR, Some(Creator(PatersonBuddCold)));
      AddType(ICE_ARRWARM, Some(Creator(PatersonBuddWarm)));
      AddType(ICE_GOLDSBY_KOHLSTEDT, Some(Creator(GoldsbyKohlstedt)));
    }

    /**
     * Builds a factory for `prefix` and selects the flow law that the configuration
     * names under `prefix + "flow_law"`; fails when that name is not registered.
     */
    static method New(prefix: string, config: string -> string) returns (r: Result<FlowLawFactory>)
      requires prefix != []
      ensures r.Success? <==> Available(StandardRegistry(), config(prefix + "flow_law"))
      ensures r.Success? ==>
                fresh(r.value) && r.value.prefix == prefix && r.value.flowLaws == StandardRegistry() &&
                r.value.typeName == config(prefix + "flow_law") && r.value.Selected()
    {
      var f := new FlowLawFactory.Init(prefix);
      var status := f.SetDefaultType(config(prefix + "flow_law"));
      if status.Error? {
        return Failure(status.message);
      }
      return Success(f);
    }

    /** Registers `creator` under `name`, replacing any earlier entry for it. */
    method AddType(name: string, creator: Option<Creator>)
      modifies this
      ensures flowLaws == old(flowLaws)[name := creator]
      ensures typeName == old(typeName)
      ensures old(Selected()) && (name != typeName || creator.Some?) ==> Selected()
    {
      flowLaws := flowLaws[name := creator];
    }

    /** Erases the entry for `name`, and only that one. */
    method RemoveType(name: string)
      modifies this
      ensures flowLaws == old(flowLaws) - {name}
      ensures typeName == old(typeName)
      ensures old(Selected()) && name != typeName ==> Selected()
      ensures name == typeName ==> !Selected()
    {
      flowLaws := flowLaws - {name};
    }

    /**
     * Selects `name`.  Fails, keeping the earlier selection, when `name` has no
     * creator; the lookup leaves a null entry for a name that was absent.
     */
    method SetDefaultType(name: string) returns (status: Status)
      modifies this
      ensures flowLaws == Touch(old(flowLaws), name)
      ensures status.Ok? <==> Available(old(flowLaws), name)
      ensures status.Ok? ==> typeName == name && Selected()
      ensures status.Error? ==> typeName == old(typeName)
      ensures status.Error? && old(Selected()) ==> Selected()
    {
      var entry := Lookup(name);
      if entry.None? {
        TouchKeepsAvailability(old(flowLaws), name, typeName);
        return Error("Selected ice flow law \"" + name + "\" is not available (prefix=\"" + prefix + "\").");
      }
      typeName := name;
      return Ok;
    }

    /**
     * Builds the selected flow law with the factory's prefix; fails when the
     * selected name lost its creator after it was selected.
     */
    method Create() returns (r: Result<FlowLaw>)
      modifies this
      ensures flowLaws == Touch(old(flowLaws), typeName)
      ensures typeName == old(typeName)
      ensures r.Success? <==> old(Selected())
      ensures r.Success? ==> r.value == FlowLaw(old(flowLaws)[typeName].value.kind, prefix)
    {
      var entry := Lookup(typeName);
      if entry.None? {
        return Failure("Selected ice flow law \"" + typeName + "\" is not available,\n" +
                       "but we shouldn't be able to get here anyway");
      }
      return Success(FlowLaw(entry.value.kind, prefix));
    }

    /** The subscript operator of the registry: the entry for `name`, inserting a null one if absent. */
    method Lookup(name: string) returns (entry: Option<Creator>)
      modifies this
      ensures flowLaws == Touch(old(flowLaws), name)
      ensures typeName == old(typeName)
      ensures entry.Some? <==> Available(old(flowLaws), name)
      ensures entry.Some? ==> entry == old(flowLaws)[name]
    {
      if name !in flowLaws {
        flowLaws := flowLaws[name := None];
      }
      entry := flowLaws[name];
    }
  }
}
