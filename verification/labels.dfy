/**
 * The label dictionary the name-table codec registers its addresses in: a
 * label for each address and an address for each label.
 */
module LabelTables {
  import opened Wrappers

  /** The two directions of the dictionary as values. */
  datatype Labels = Labels(addressOf: map<string, nat>, labelAt: map<nat, string>)

  /** No address at or past `position` has a label yet. */
  predicate LabelsBelow(l: Labels, position: nat)
  {
    forall address :: address in l.labelAt ==> address < position
  }

  /** `l` keeps every entry of `before`, in both directions. */
  predicate Extends(l: Labels, before: Labels)
  {
    (forall name {:trigger before.addressOf[name]} :: name in before.addressOf ==> name in l.addressOf && l.addressOf[name] == before.addressOf[name]) &&
    (forall address {:trigger before.labelAt[address]} :: address in before.labelAt ==> address in l.labelAt && l.labelAt[address] == before.labelAt[address])
  }

  /**
   * AddSafe: registers the label `name` at `address` in each direction where the key
   * is still free; a key already taken keeps its entry and nothing is thrown.
   */
  function AddIfAbsent(l: Labels, address: nat, name: string): (r: Labels)
    ensures Extends(r, l)
    ensures name in r.addressOf && address in r.labelAt
    ensures name !in l.addressOf ==> r.addressOf[name] == address
    ensures address !in l.labelAt ==> r.labelAt[address] == name
    ensures r.addressOf.Keys == l.addressOf.Keys + {name} && r.labelAt.Keys == l.labelAt.Keys + {address}
  {
    Labels(if name in l.addressOf then l.addressOf else l.addressOf[name := address],
           if address in l.labelAt then l.labelAt else l.labelAt[address := name])
  }

  /**
   * What Add does: like AddSafe, except that an address already labelled with a
   * different label is a conflict; re-adding the same pair changes nothing.
   */
  function TryAdd(l: Labels, address: nat, name: string): (r: Result<Labels, ()>)
    ensures r.Failure? <==> address in l.labelAt && l.labelAt[address] != name
    ensures r.Success? ==> r.value == AddIfAbsent(l, address, name)
  {
    if address in l.labelAt && l.labelAt[address] != name then Failure(())
    else Success(AddIfAbsent(l, address, name))
  }

  /** Adding anything keeps every older entry and leaves no later address labelled. */
  lemma AddIfAbsentBelow(l: Labels, address: nat, name: string, position: nat)
    requires LabelsBelow(l, position) && address < position
    ensures LabelsBelow(AddIfAbsent(l, address, name), position)
  {
  }

  /** Extending is transitive. */
  lemma ExtendsTrans(a: Labels, b: Labels, c: Labels)
    requires Extends(b, a) && Extends(c, b)
    ensures Extends(c, a)
  {
  }

  /** The label dictionary object: both maps, updated in place. */
  class LabelDictionary {
    var addressOf: map<string, nat>
    var labelAt: map<nat, string>

    /** The dictionary as a value. */
    function State(): (l: Labels)
      reads this
      ensures l.addressOf == addressOf && l.labelAt == labelAt
    {
      Labels(addressOf, labelAt)
    }

    /** An empty dictionary. */
    constructor ()
      ensures addressOf == map[] && labelAt == map[]
    {
      addressOf := map[];
      labelAt := map[];
    }

    /** TryGetAddress: the address registered for the label `name`, if any. */
    function TryGetAddress(name: string): (r: Option<nat>)
      reads this
      ensures r.Some? <==> name in addressOf
      ensures r.Some? ==> r.value == addressOf[name]
    {
      if name in addressOf then Some(addressOf[name]) else None
    }

    /** TryGetValue: the label registered at `address`, if any. */
    function TryGetValue(address: nat): (r: Option<string>)
      reads this
      ensures r.Some? <==> address in labelAt
      ensures r.Some? ==> r.value == labelAt[address]
    {
      if address in labelAt then Some(labelAt[address]) else None
    }

    /** AddSafe. */
    method AddSafe(address: nat, name: string)
      modifies this
      ensures State() == AddIfAbsent(old(State()), address, name)
    {
      if name !in addressOf {
        addressOf := addressOf[name := address];
      }
      if address !in labelAt {
        labelAt := labelAt[address := name];
      }
    }

    /** Add: `false`, and nothing changed, on a conflicting address. */
    method Add(address: nat, name: string) returns (ok: bool)
      modifies this
      ensures var r := TryAdd(old(State()), address, name);
        ok == r.Success? && State() == if ok then r.value else old(State())
    {
      if address in labelAt && labelAt[address] != name {
        return false;
      }
      AddSafe(address, name);
      return true;
    }
  }
}
