/** The data side of the configuration window: the checks its input fields
    make before calling the store, and the rebuild of the profile list from
    the edited table rows. Widgets become the texts they hold. */
module Editor {
  import opened Seqs
  import opened Text
  import opened Store

  /** One row of the profile table: the texts of its name and command cells. */
  type Row = (string, string)

  /** The profile a row describes, its cells stripped. */
  function RowProfile(row: Row): Profile
  {
    Profile(Trim(row.0), Trim(row.1))
  }

  /** Both the name and the command are non-empty. */
  predicate Filled(p: Profile)
  {
    p.name != [] && p.command != []
  }

  function TrimmedRows(rows: seq<Row>): seq<Profile>
  {
    seq(|rows|, i requires 0 <= i < |rows| => RowProfile(rows[i]))
  }

  /** The profile list rebuilt from the table: the stripped rows whose name
      and command are both non-empty, in row order. */
  function EditedProfiles(rows: seq<Row>): seq<Profile>
  {
    Filter(TrimmedRows(rows), Filled)
  }

  /** Rebuilding from one more row extends the list by that row when it is
      filled. */
  lemma EditedProfilesSnoc(rows: seq<Row>, n: nat)
    requires n < |rows|
    ensures EditedProfiles(rows[..n + 1])
            == EditedProfiles(rows[..n]) + (if Filled(RowProfile(rows[n])) then [RowProfile(rows[n])] else [])
  {
    assert TrimmedRows(rows[..n + 1]) == TrimmedRows(rows[..n]) + [RowProfile(rows[n])];
    FilterSnoc(TrimmedRows(rows[..n]), RowProfile(rows[n]), Filled);
  }

  /** The rebuilt list holds exactly the filled rows, in row order, each
      already stripped; blank rows are dropped silently. */
  lemma EditedProfilesExactly(rows: seq<Row>)
    ensures IsSubseq(EditedProfiles(rows), TrimmedRows(rows))
    ensures forall p :: p in EditedProfiles(rows) <==>
              Filled(p) && exists i :: 0 <= i < |rows| && RowProfile(rows[i]) == p
    ensures forall p :: p in EditedProfiles(rows) ==>
              Trim(p.name) == p.name && Trim(p.command) == p.command
  {
    var r := EditedProfiles(rows);
    forall p ensures p in r <==> Filled(p) && exists i :: 0 <= i < |rows| && RowProfile(rows[i]) == p {
      assert p in r <==> multiset(r)[p] > 0;
      if p in TrimmedRows(rows) {
        var i :| 0 <= i < |rows| && TrimmedRows(rows)[i] == p;
        assert RowProfile(rows[i]) == p;
      }
      if exists i :: 0 <= i < |rows| && RowProfile(rows[i]) == p {
        var i :| 0 <= i < |rows| && RowProfile(rows[i]) == p;
        assert TrimmedRows(rows)[i] == p;
      }
    }
    forall p | p in r ensures Trim(p.name) == p.name && Trim(p.command) == p.command {
      var i :| 0 <= i < |rows| && RowProfile(rows[i]) == p;
      TrimIdempotent(rows[i].0);
      TrimIdempotent(rows[i].1);
    }
  }

  /** The configuration window, reduced to the store it edits. */
  class ConfigWindow {
    const manager: ConfigManager

    constructor (disk: Option<Config>)
      requires disk.Some? ==> UniqueKeys(disk.value.domains)
      ensures fresh(manager) && manager.Valid()
      ensures manager.Current() == (if disk.None? then EmptyConfig else disk.value)
      ensures manager.file == disk
    {
      manager := new ConfigManager(disk);
    }

    /** The "Add Profile" button: a name or command that is blank once
        stripped is refused with a warning and nothing changes; otherwise the
        stripped pair is appended. */
    method AddProfile(nameText: string, commandText: string) returns (added: bool)
      requires manager.Valid()
      modifies manager
      ensures manager.Valid()
      ensures added <==> !AllSpace(nameText) && !AllSpace(commandText)
      ensures added ==>
                && manager.profiles == old(manager.profiles) + [Profile(Trim(nameText), Trim(commandText))]
                && manager.domains == old(manager.domains)
                && manager.file == Some(manager.Current())
      ensures !added ==> unchanged(manager)
    {
      var name := Trim(nameText);
      var command := Trim(commandText);
      TrimEmptyIffAllSpace(nameText);
      TrimEmptyIffAllSpace(commandText);
      if name == [] || command == [] {
        return false;
      }
      manager.AddProfile(name, command);
      return true;
    }

    /** The "Add Domain Rule" button: a domain that is blank once stripped is
        refused; otherwise the stripped domain is mapped to the profile combo
        box's current text, which is "" when there are no profiles. */
    method AddDomain(domainText: string, profile: string) returns (added: bool)
      requires manager.Valid()
      modifies manager
      ensures manager.Valid()
      ensures added <==> !AllSpace(domainText)
      ensures added ==>
                && manager.domains == Put(old(manager.domains), Trim(domainText), profile)
                && manager.profiles == old(manager.profiles)
                && manager.file == Some(manager.Current())
      ensures !added ==> unchanged(manager)
    {
      var domain := Trim(domainText);
      TrimEmptyIffAllSpace(domainText);
      if domain == [] {
        return false;
      }
      manager.SetDomainProfile(domain, profile);
      return true;
    }

    /** The delete button of a profile row, after the Yes/No question. */
    method DeleteProfile(name: string, confirmed: bool)
      requires manager.Valid()
      modifies manager
      ensures manager.Valid()
      ensures confirmed ==>
                && manager.profiles == WithoutProfile(old(manager.profiles), name)
                && manager.domains == WithoutValue(old(manager.domains), name)
                && manager.file == Some(manager.Current())
      ensures !confirmed ==> unchanged(manager)
    {
      if confirmed {
        manager.RemoveProfile(name);
      }
    }

    /** The delete button of a domain row, after the Yes/No question. */
    method DeleteDomain(domain: string, confirmed: bool)
      requires manager.Valid()
      modifies manager
      ensures manager.Valid()
      ensures confirmed && domain in Keys(old(manager.domains)) ==>
                && manager.domains == WithoutKey(old(manager.domains), domain)
                && manager.profiles == old(manager.profiles)
                && manager.file == Some(manager.Current())
      ensures !confirmed || domain !in Keys(old(manager.domains)) ==> unchanged(manager)
    {
      if confirmed {
        manager.RemoveDomain(domain);
      }
    }

    /** "Save Changes" on the profile tab: the profile list is rebuilt from
        the table rows and saved; the domain rules are left as they are, so a
        renamed profile's rules keep the old name. */
    method SaveProfileChanges(rows: seq<Row>)
      requires manager.Valid()
      modifies manager
      ensures manager.Valid()
      ensures manager.profiles == EditedProfiles(rows)
      ensures manager.domains == old(manager.domains)
      ensures manager.file == Some(manager.Current())
    {
      var profiles: seq<Profile> := [];
      var row := 0;
      while row < |rows|
        invariant 0 <= row <= |rows|
        invariant profiles == EditedProfiles(rows[..row])
        invariant unchanged(manager)
      {
        var name := Trim(rows[row].0);
        var command := Trim(rows[row].1);
        EditedProfilesSnoc(rows, row);
        if name != [] && command != [] {
          profiles := profiles + [Profile(name, command)];
        }
        row := row + 1;
      }
      assert rows[..row] == rows;
      manager.profiles := profiles;
      manager.SaveConfig();
    }
  }
}
