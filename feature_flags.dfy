/** Feature flags: a table of named switches, read through a memo cache that
    is invalidated whenever a flag is set. */
module FeatureFlags {
  import opened Wrappers
  import opened Models

  /** Whether `name` is switched on: the flag's value, or false when the
      table has no flag of that name. */
  predicate Enabled(flags: map<string, Flag>, name: string) {
    name in flags && flags[name].enabled
  }

  /** Every flag is stored under its own name (the query is by name). */
  predicate Keyed(flags: map<string, Flag>) {
    forall n :: n in flags ==> flags[n].name == n
  }

  /** A description replaces the stored one only when it is truthy: present
      and not empty. */
  predicate Truthy(description: Option<string>) {
    description.Some? && description.value != []
  }

  /** The table after `set_feature_flag(name, enabled, description)`: a new
      flag with the given value and description when the name is new,
      otherwise the flag with its value set and its description replaced
      by a truthy one; every other flag as it was. */
  function Upsert(flags: map<string, Flag>, name: string, enabled: bool, description: Option<string>): (r: map<string, Flag>)
    requires Keyed(flags)
    ensures Keyed(r)
    ensures r.Keys == flags.Keys + {name}
    ensures r[name].name == name && r[name].enabled == enabled
    ensures name !in flags ==> r[name].description == description
    ensures name in flags && Truthy(description) ==> r[name].description == description
    ensures name in flags && !Truthy(description) ==> r[name].description == flags[name].description
    ensures forall n :: n in flags && n != name ==> r[n] == flags[n]
  {
    if name !in flags then flags[name := Flag(name, description, enabled)]
    else
      var flag := flags[name];
      flags[name := flag.(enabled := enabled, description := if Truthy(description) then description else flag.description)]
  }

  /** Setting a flag and then reading it gives the value just set, whether
      the flag was new or not. */
  lemma SetThenRead(flags: map<string, Flag>, name: string, enabled: bool, description: Option<string>)
    requires Keyed(flags)
    ensures Enabled(Upsert(flags, name, enabled, description), name) == enabled
  {
  }

  /** Setting one flag does not change what any other name reads. */
  lemma SetLeavesOthers(flags: map<string, Flag>, name: string, enabled: bool, description: Option<string>, other: string)
    requires Keyed(flags) && other != name
    ensures Enabled(Upsert(flags, name, enabled, description), other) == Enabled(flags, other)
  {
  }

  /** The flag table together with the memo cache of `is_feature_enabled`. */
  class FlagTable {
    var flags: map<string, Flag>
    var cache: map<string, bool>

    /** Every flag is stored under its own name, and every cached answer is
        the one the table gives now. */
    ghost predicate Valid()
      reads this
    {
      Keyed(flags) &&
      (forall n :: n in cache ==> cache[n] == Enabled(flags, n))
    }

    constructor()
      ensures Valid() && flags == map[] && cache == map[]
    {
      flags, cache := map[], map[];
    }

    /** `is_feature_enabled(name)`: the cached answer when there is one,
        otherwise the table's answer, which is then cached. Either way the
        answer is the table's. */
    method IsFeatureEnabled(name: string) returns (enabled: bool)
      requires Valid()
      modifies this
      ensures Valid()
      ensures enabled == Enabled(flags, name)
      ensures flags == old(flags) && cache == old(cache)[name := enabled]
    {
      if name in cache {
        enabled := cache[name];
        return;
      }
      enabled := name in flags && flags[name].enabled;
      cache := cache[name := enabled];
    }

    /** `set_feature_flag(name, enabled, description)`: the upsert, then the
        cached answer for `name` is dropped (those for other names stay);
        the stored flag is returned. */
    method SetFeatureFlag(name: string, enabled: bool, description: Option<string>) returns (flag: Flag)
      requires Valid()
      modifies this
      ensures Valid()
      ensures flags == Upsert(old(flags), name, enabled, description)
      ensures cache == old(cache) - {name}
      ensures flag == flags[name] && flag.name == name && flag.enabled == enabled
    {
      if name !in flags {
        flag := Flag(name, description, enabled);
      } else {
        flag := flags[name].(enabled := enabled);
        if description.Some? && description.value != [] {
          flag := flag.(description := description);
        }
      }
      flags := flags[name := flag];
      cache := cache - {name};
      forall n | n in cache ensures cache[n] == Enabled(flags, n) {
        SetLeavesOthers(old(flags), name, enabled, description, n);
      }
    }
  }

  /** The cache is invisible: after setting a flag, the next read of it,
      cached or not, returns the value just set. */
  method SetThenIsEnabled(t: FlagTable, name: string, enabled: bool, description: Option<string>) returns (read: bool)
    requires t.Valid()
    modifies t
    ensures t.Valid()
    ensures read == enabled
  {
    var flag := t.SetFeatureFlag(name, enabled, description);
    read := t.IsFeatureEnabled(name);
    SetThenRead(old(t.flags), name, enabled, description);
  }
}
