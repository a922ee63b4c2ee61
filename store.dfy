/** The configuration store: a list of launch profiles and an
    insertion-ordered table from domain to profile name, persisted as one
    unit after every change. */
module Store {
  import opened Seqs

  /** One launch profile: a name and the command that starts the browser. */
  datatype Profile = Profile(name: string, command: string)

  /** One domain rule: (domain, profile name). */
  type Rule = (string, string)

  /** The whole persisted aggregate. The domain table is a Python dict,
      modelled as its items in insertion order. */
  datatype Config = Config(profiles: seq<Profile>, domains: seq<Rule>)

  /** What is read when there is no backing file. */
  const EmptyConfig := Config([], [])

  /** The rule keys, in insertion order. */
  function Keys(ds: seq<Rule>): (ks: seq<string>)
    ensures |ks| == |ds|
    ensures forall i :: 0 <= i < |ds| ==> ks[i] == ds[i].0
  {
    if ds == [] then [] else [ds[0].0] + Keys(ds[1..])
  }

  /** No key occurs twice: the table is a dict. */
  predicate UniqueKeys(ds: seq<Rule>)
  {
    ds == [] || (ds[0].0 !in Keys(ds[1..]) && UniqueKeys(ds[1..]))
  }

  /** `dict.get(k)`: the value stored under `k`, if any. */
  function Lookup(ds: seq<Rule>, k: string): (v: Option<string>)
    ensures v.None? <==> k !in Keys(ds)
    ensures v.Some? ==> (k, v.value) in ds
  {
    if ds == [] then None
    else if ds[0].0 == k then Some(ds[0].1)
    else Lookup(ds[1..], k)
  }

  /** `d[k] = v`: an existing key keeps its position and gets the new value;
      a new key is appended last. */
  function Put(ds: seq<Rule>, k: string, v: string): (r: seq<Rule>)
    ensures Lookup(r, k) == Some(v)
    ensures forall k' :: k' != k ==> Lookup(r, k') == Lookup(ds, k')
  {
    if ds == [] then [(k, v)]
    else if ds[0].0 == k then [(k, v)] + ds[1..]
    else
      var rest := Put(ds[1..], k, v);
      assert ([ds[0]] + rest)[1..] == rest;
      [ds[0]] + rest
  }

  /** Overwriting keeps the key's position; a new key comes last. */
  lemma {:induction false} PutKeys(ds: seq<Rule>, k: string, v: string)
    ensures Keys(Put(ds, k, v)) == if k in Keys(ds) then Keys(ds) else Keys(ds) + [k]
  {
    if ds != [] && ds[0].0 != k {
      PutKeys(ds[1..], k, v);
      var rest := Put(ds[1..], k, v);
      assert Keys(ds) == [ds[0].0] + Keys(ds[1..]);
      assert ([ds[0]] + rest)[1..] == rest;
      assert Keys([ds[0]] + rest) == [ds[0].0] + Keys(rest);
    }
  }

  /** Assigning into a dict leaves a dict. */
  lemma {:induction false} PutUniqueKeys(ds: seq<Rule>, k: string, v: string)
    requires UniqueKeys(ds)
    ensures UniqueKeys(Put(ds, k, v))
  {
    if ds != [] {
      if ds[0].0 == k {
        assert ([(k, v)] + ds[1..])[1..] == ds[1..];
      } else {
        PutUniqueKeys(ds[1..], k, v);
        PutKeys(ds[1..], k, v);
        var rest := Put(ds[1..], k, v);
        assert ([ds[0]] + rest)[1..] == rest;
      }
    }
  }

  /** `del d[k]` on a dict holding `k`: every rule but the one for `k`, in
      order. */
  function WithoutKey(ds: seq<Rule>, k: string): seq<Rule>
  {
    Filter(ds, (r: Rule) => r.0 != k)
  }

  /** `{d: p for d, p in domains.items() if p != name}`. */
  function WithoutValue(ds: seq<Rule>, name: string): seq<Rule>
  {
    Filter(ds, (r: Rule) => r.1 != name)
  }

  /** `[p for p in profiles if p["name"] != name]`. */
  function WithoutProfile(ps: seq<Profile>, name: string): seq<Profile>
  {
    Filter(ps, (p: Profile) => p.name != name)
  }

  /** Dropping rules from a dict leaves a dict. */
  lemma {:induction false} SubseqUniqueKeys(r: seq<Rule>, s: seq<Rule>)
    requires IsSubseq(r, s)
    requires UniqueKeys(s)
    ensures UniqueKeys(r)
  {
    if r != [] {
      if r[0] == s[0] {
        SubseqUniqueKeys(r[1..], s[1..]);
        if r[0].0 in Keys(r[1..]) {
          var i :| 0 <= i < |r[1..]| && Keys(r[1..])[i] == r[0].0;
          assert r[1..][i] in r[1..];
          SubseqMembers(r[1..], s[1..], r[1..][i]);
        }
      } else {
        SubseqUniqueKeys(r, s[1..]);
      }
    }
  }

  /** After `del d[k]` the key is gone and every other key reads as before. */
  lemma {:induction false} LookupWithoutKey(ds: seq<Rule>, k: string, k': string)
    ensures Lookup(WithoutKey(ds, k), k') == if k' == k then None else Lookup(ds, k')
  {
    if ds != [] {
      LookupWithoutKey(ds[1..], k, k');
    }
  }

  /** The cascade of `remove_profile`: a key whose rule named the removed
      profile disappears, every other key reads as before. */
  lemma {:induction false} LookupWithoutValue(ds: seq<Rule>, name: string, k: string)
    requires UniqueKeys(ds)
    ensures Lookup(WithoutValue(ds, name), k)
            == if Lookup(ds, k) == Some(name) then None else Lookup(ds, k)
  {
    if ds != [] {
      LookupWithoutValue(ds[1..], name, k);
      if ds[0].0 == k && ds[0].1 == name {
        assert Lookup(ds[1..], k).None?;
      }
    }
  }

  /** A key that is not yet in the table is appended as the last rule. */
  lemma {:induction false} PutNewKey(ds: seq<Rule>, k: string, v: string)
    requires k !in Keys(ds)
    ensures Put(ds, k, v) == ds + [(k, v)]
  {
    if ds != [] {
      assert ds[0].0 == Keys(ds)[0];
      assert Keys(ds[1..]) == Keys(ds)[1..];
      PutNewKey(ds[1..], k, v);
      assert ds == [ds[0]] + ds[1..];
    }
  }

  /** The profile lookup `next((p for p in profiles if p["name"] == name), None)`. */
  function FindProfile(ps: seq<Profile>, name: string): (r: Option<Profile>)
    ensures r.Some? ==> r.value in ps && r.value.name == name
    ensures r.None? <==> forall i :: 0 <= i < |ps| ==> ps[i].name != name
  {
    if ps == [] then None
    else if ps[0].name == name then Some(ps[0])
    else
      var r := FindProfile(ps[1..], name);
      assert forall i :: 1 <= i < |ps| ==> ps[i] == ps[1..][i - 1];
      r
  }

  /** The lookup returns the FIRST profile carrying the name. */
  lemma {:induction false} FindProfileFirst(ps: seq<Profile>, name: string)
    requires FindProfile(ps, name).Some?
    ensures exists i :: 0 <= i < |ps| && ps[i] == FindProfile(ps, name).value
                        && forall j :: 0 <= j < i ==> ps[j].name != name
  {
    if ps[0].name != name {
      FindProfileFirst(ps[1..], name);
      var i :| 0 <= i < |ps[1..]| && ps[1..][i] == FindProfile(ps[1..], name).value
               && forall j :: 0 <= j < i ==> ps[1..][j].name != name;
      assert ps[i + 1] == FindProfile(ps, name).value;
      assert forall j :: 1 <= j < i + 1 ==> ps[j] == ps[1..][j - 1];
    }
  }

  /** Appending a profile does not change what a name finds when an earlier
      profile already carries it: duplicates are allowed, and the first wins. */
  lemma {:induction false} FindProfileAppend(ps: seq<Profile>, p: Profile, name: string)
    ensures FindProfile(ps + [p], name)
            == if FindProfile(ps, name).Some? then FindProfile(ps, name)
               else if p.name == name then Some(p) else None
  {
    if ps != [] {
      assert (ps + [p])[1..] == ps[1..] + [p];
      FindProfileAppend(ps[1..], p, name);
    }
  }

  /** The configuration manager: the loaded configuration, updated in place,
      and the backing file it is saved to after every change. */
  class ConfigManager {
    var profiles: seq<Profile>
    var domains: seq<Rule>
    /** The contents of the backing file; `None` while it does not exist. */
    var file: Option<Config>

    ghost predicate Valid()
      reads this
    {
      UniqueKeys(domains)
    }

    function Current(): Config
      reads this
    {
      Config(profiles, domains)
    }

    /** `__init__` with `load_config`: the configuration read from the file,
        or the empty configuration when there is no file. */
    constructor (disk: Option<Config>)
      requires disk.Some? ==> UniqueKeys(disk.value.domains)
      ensures Valid()
      ensures Current() == (if disk.None? then EmptyConfig else disk.value)
      ensures file == disk
    {
      var c := if disk.None? then EmptyConfig else disk.value;
      profiles := c.profiles;
      domains := c.domains;
      file := disk;
    }

    /** `save_config`: the whole configuration is written to the file. */
    method SaveConfig()
      modifies this`file
      ensures file == Some(Current())
    {
      file := Some(Config(profiles, domains));
    }

    /** `get_domain_profile`. */
    function GetDomainProfile(domain: string): Option<string>
      reads this
    {
      Lookup(domains, domain)
    }

    /** `add_profile`: one profile appended, duplicates allowed. */
    method AddProfile(name: string, command: string)
      requires Valid()
      modifies this
      ensures Valid()
      ensures profiles == old(profiles) + [Profile(name, command)]
      ensures domains == old(domains)
      ensures file == Some(Current())
    {
      profiles := profiles + [Profile(name, command)];
      SaveConfig();
    }

    /** `remove_profile`: every profile with that name goes, and so does
        every rule pointing at it. */
    method RemoveProfile(name: string)
      requires Valid()
      modifies this
      ensures Valid()
      ensures profiles == WithoutProfile(old(profiles), name)
      ensures domains == WithoutValue(old(domains), name)
      ensures forall p :: p in profiles ==> p.name != name
      ensures forall k :: GetDomainProfile(k) != Some(name)
      ensures forall k :: old(GetDomainProfile(k)) != Some(name) ==> GetDomainProfile(k) == old(GetDomainProfile(k))
      ensures file == Some(Current())
    {
      profiles := WithoutProfile(profiles, name);
      ghost var before := domains;
      domains := WithoutValue(domains, name);
      SubseqUniqueKeys(domains, before);
      forall k ensures Lookup(domains, k) == if Lookup(before, k) == Some(name) then None else Lookup(before, k) {
        LookupWithoutValue(before, name, k);
      }
      SaveConfig();
    }

    /** `set_domain_profile`: insert or overwrite one rule. */
    method SetDomainProfile(domain: string, profile: string)
      requires Valid()
      modifies this
      ensures Valid()
      ensures domains == Put(old(domains), domain, profile)
      ensures GetDomainProfile(domain) == Some(profile)
      ensures forall k :: k != domain ==> GetDomainProfile(k) == old(GetDomainProfile(k))
      ensures Keys(domains) == if domain in Keys(old(domains)) then Keys(old(domains)) else Keys(old(domains)) + [domain]
      ensures profiles == old(profiles)
      ensures file == Some(Current())
    {
      PutUniqueKeys(domains, domain, profile);
      PutKeys(domains, domain, profile);
      domains := Put(domains, domain, profile);
      SaveConfig();
    }

    /** `remove_domain`: delete the rule when it is there, and save only then. */
    method RemoveDomain(domain: string)
      requires Valid()
      modifies this
      ensures Valid()
      ensures GetDomainProfile(domain).None?
      ensures old(GetDomainProfile(domain)).None? ==> unchanged(this)
      ensures old(GetDomainProfile(domain)).Some? ==>
                domains == WithoutKey(old(domains), domain) && file == Some(Current())
      ensures forall k :: k != domain ==> GetDomainProfile(k) == old(GetDomainProfile(k))
      ensures profiles == old(profiles)
    {
      if domain in Keys(domains) {
        ghost var before := domains;
        domains := WithoutKey(domains, domain);
        SubseqUniqueKeys(domains, before);
        forall k ensures Lookup(domains, k) == if k == domain then None else Lookup(before, k) {
          LookupWithoutKey(before, domain, k);
        }
        SaveConfig();
      }
    }
  }
}
