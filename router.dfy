/** The URL-opening branch of the program: pick the domain rule for the
    URL's host, launch the profile it names, or else ask the user and
    optionally remember the answer as a rule for the parent domain. */
module Router {
  import opened Seqs
  import opened Text
  import opened Store

  /** The rule keyed `key` applies to `host`: the host is the key itself or
      ends with "." followed by the key. */
  predicate Matches(host: string, key: string)
  {
    host == key || EndsWith(host, "." + key)
  }

  /** The rule at index `i` is the first one, in insertion order, that
      applies to `host`. */
  predicate FirstMatchAt(ds: seq<Rule>, host: string, i: int)
  {
    && 0 <= i < |ds|
    && Matches(host, ds[i].0)
    && forall j :: 0 <= j < i ==> !Matches(host, ds[j].0)
  }

  /** The profile name the rules pick for `host`: the value of the first
      applicable rule. There is no separate exact-match pass. */
  function Resolution(ds: seq<Rule>, host: string): Option<string>
  {
    if ds == [] then None
    else if Matches(host, ds[0].0) then Some(ds[0].1)
    else Resolution(ds[1..], host)
  }

  /** `Resolution` is the first-match search, in both directions. */
  lemma {:induction false} ResolutionIsFirstMatch(ds: seq<Rule>, host: string)
    ensures Resolution(ds, host).None? <==> forall i :: 0 <= i < |ds| ==> !Matches(host, ds[i].0)
    ensures Resolution(ds, host).Some? ==>
              exists i :: FirstMatchAt(ds, host, i) && Resolution(ds, host).value == ds[i].1
    ensures forall i :: FirstMatchAt(ds, host, i) ==> Resolution(ds, host) == Some(ds[i].1)
  {
    if ds != [] {
      ResolutionIsFirstMatch(ds[1..], host);
      assert forall i :: 1 <= i < |ds| ==> ds[i] == ds[1..][i - 1];
      if !Matches(host, ds[0].0) {
        forall i | FirstMatchAt(ds, host, i) ensures FirstMatchAt(ds[1..], host, i - 1) {
          assert i != 0;
        }
        if Resolution(ds, host).Some? {
          var i :| FirstMatchAt(ds[1..], host, i) && Resolution(ds, host).value == ds[1..][i].1;
          assert FirstMatchAt(ds, host, i + 1);
        }
      } else {
        assert FirstMatchAt(ds, host, 0);
      }
    }
  }

  /** A rule appended at the end is consulted only when no earlier rule
      applies. */
  lemma {:induction false} ResolutionAppend(ds: seq<Rule>, r: Rule, host: string)
    ensures Resolution(ds + [r], host)
            == if Resolution(ds, host).Some? then Resolution(ds, host) else Resolution([r], host)
  {
    if ds != [] {
      assert (ds + [r])[1..] == ds[1..] + [r];
      ResolutionAppend(ds[1..], r, host);
    }
  }

  /** The resolution loop over the domain rules, stopping at the first rule
      that applies. */
  method Resolve(domains: seq<Rule>, host: string) returns (profileName: Option<string>)
    ensures profileName == Resolution(domains, host)
  {
    profileName := None;
    var i := 0;
    while i < |domains|
      invariant 0 <= i <= |domains|
      invariant profileName.None?
      invariant Resolution(domains, host) == Resolution(domains[i..], host)
    {
      var (configDomain, profile) := domains[i];
      if host == configDomain || EndsWith(host, "." + configDomain) {
        profileName := Some(profile);
        break;
      }
      assert domains[i..][1..] == domains[i + 1..];
      i := i + 1;
    }
  }

  /** The command string launched for a resolved profile name: only a
      non-empty name that some profile carries launches, with the command of
      the first such profile, a space, then the URL. */
  function LaunchCommand(ps: seq<Profile>, resolved: Option<string>, url: string): Option<string>
  {
    if resolved.Some? && resolved.value != "" then
      match FindProfile(ps, resolved.value)
      case Some(p) => Some(p.command + " " + url)
      case None => None
    else None
  }

  /** When a resolution launches, and what it launches. */
  lemma LaunchCommandSpec(ps: seq<Profile>, resolved: Option<string>, url: string)
    ensures LaunchCommand(ps, resolved, url).Some? <==>
              && resolved.Some? && resolved.value != ""
              && exists i :: 0 <= i < |ps| && ps[i].name == resolved.value
    ensures LaunchCommand(ps, resolved, url).Some? ==>
              exists i :: && 0 <= i < |ps| && ps[i].name == resolved.value
                          && (forall j :: 0 <= j < i ==> ps[j].name != resolved.value)
                          && LaunchCommand(ps, resolved, url).value == ps[i].command + " " + url
  {
    if LaunchCommand(ps, resolved, url).Some? {
      FindProfileFirst(ps, resolved.value);
    }
  }

  /** The rule key remembered for `host`: its last two `.`-separated labels
      joined again, or nothing for a single-label host. */
  function ParentDomain(host: string): Option<string>
  {
    var parts := Split(host);
    if |parts| > 1 then Some(Join(parts[|parts| - 2..])) else None
  }

  /** Nothing is remembered exactly when the host has no dot. */
  lemma ParentDomainNone(host: string)
    ensures ParentDomain(host).None? <==> '.' !in host
  {
    if '.' !in host {
      SplitLabel(host);
    } else {
      JoinSplit(host);
    }
  }

  /** The remembered key is made of exactly the last two labels of the host. */
  lemma ParentDomainLabels(host: string)
    ensures ParentDomain(host).Some? ==>
              Split(ParentDomain(host).value) == Split(host)[|Split(host)| - 2..]
  {
    var parts := Split(host);
    if |parts| > 1 {
      SplitJoin(parts[|parts| - 2..]);
    }
  }

  /** The remembered key is a rule that applies to the host it came from. */
  lemma ParentDomainMatches(host: string)
    ensures ParentDomain(host).Some? ==> Matches(host, ParentDomain(host).value)
  {
    var parts := Split(host);
    var n := |parts|;
    if n > 1 {
      JoinSplit(host);
      var p := Join(parts[n - 2..]);
      if n == 2 {
        assert parts[n - 2..] == parts;
      } else {
        assert parts == parts[..n - 2] + parts[n - 2..];
        JoinAppend(parts[..n - 2], parts[n - 2..]);
        var front := Join(parts[..n - 2]);
        assert host == front + ("." + p);
        assert host[|host| - |"." + p|..] == "." + p;
      }
    }
  }

  /** Remembering a choice for a host no rule applied to makes the host
      resolve to the chosen profile from then on. */
  lemma RememberedHostResolves(ds: seq<Rule>, host: string, chosen: string)
    requires Resolution(ds, host).None?
    requires ParentDomain(host).Some?
    ensures Resolution(Put(ds, ParentDomain(host).value, chosen), host) == Some(chosen)
  {
    var p := ParentDomain(host).value;
    ParentDomainMatches(host);
    ResolutionIsFirstMatch(ds, host);
    assert p !in Keys(ds);
    PutNewKey(ds, p, chosen);
    ResolutionAppend(ds, (p, chosen), host);
  }

  /** Rules are tried in insertion order, not by specificity: an earlier
      parent-domain rule wins over a later exact rule. */
  lemma InsertionOrderWins()
    ensures Resolution([("example.com", "P1"), ("sub.example.com", "P2")], "sub.example.com") == Some("P1")
  {
  }

  /** A suffix match must start at a dot. */
  lemma SuffixNeedsDot()
    ensures Resolution([("example.com", "P1")], "notexample.com").None?
    ensures Resolution([("example.com", "P1")], "mail.example.com") == Some("P1")
  {
  }

  /** The last two labels are kept; a host without a dot gives no rule. */
  lemma ParentDomainExamples()
    ensures ParentDomain("a.b.example.com") == Some("example.com")
    ensures ParentDomain("localhost").None?
  {
    var parts := ["a", "b", "example", "com"];
    assert "a.b.example.com" == Join(parts);
    SplitJoin(parts);
    assert parts[2..] == ["example", "com"];
    ParentDomainNone("localhost");
  }

  /** The answer of the profile picker: the profile name selected and the
      state of the "Remember this choice" box. */
  datatype Choice = Choice(profileName: string, remember: bool)

  /** Opening a URL. `host` stands for the URL's network location and
      `answer` for what the picker returns if it is shown (`None` for
      Cancel). The result is the command string handed to the shell, if any. */
  method OpenUrl(cm: ConfigManager, url: string, host: string, answer: Option<Choice>)
    returns (command: Option<string>)
    requires cm.Valid()
    modifies cm
    ensures cm.Valid()
    ensures var direct := LaunchCommand(old(cm.profiles), Resolution(old(cm.domains), host), url);
            direct.Some? ==> command == direct && unchanged(cm)
    ensures var direct := LaunchCommand(old(cm.profiles), Resolution(old(cm.domains), host), url);
            direct.None? && answer.None? ==> command.None? && unchanged(cm)
    ensures var direct := LaunchCommand(old(cm.profiles), Resolution(old(cm.domains), host), url);
            direct.None? && answer.Some? ==>
              var found := FindProfile(old(cm.profiles), answer.value.profileName);
              && command == (if found.Some? then Some(found.value.command + " " + url) else None)
              && if found.Some? && answer.value.remember && ParentDomain(host).Some? then
                   && cm.domains == Put(old(cm.domains), ParentDomain(host).value, answer.value.profileName)
                   && cm.profiles == old(cm.profiles)
                   && cm.file == Some(cm.Current())
                 else unchanged(cm)
    ensures && Resolution(old(cm.domains), host).None? && answer.Some? && answer.value.remember
            && FindProfile(old(cm.profiles), answer.value.profileName).Some? && '.' in host
            ==> Resolution(cm.domains, host) == Some(answer.value.profileName)
  {
    var profileName := Resolve(cm.domains, host);
    if profileName.Some? && profileName.value != "" {
      var profile := FindProfile(cm.profiles, profileName.value);
      if profile.Some? {
        return Some(profile.value.command + " " + url);
      }
    }
    if answer.None? {
      return None;
    }
    var chosen := answer.value.profileName;
    var profile := FindProfile(cm.profiles, chosen);
    if profile.None? {
      return None;
    }
    ParentDomainNone(host);
    if answer.value.remember {
      var parent := ParentDomain(host);
      if parent.Some? {
        if profileName.None? {
          RememberedHostResolves(cm.domains, host, chosen);
        }
        cm.SetDomainProfile(parent.value, chosen);
      }
    }
    return Some(profile.value.command + " " + url);
  }
}
