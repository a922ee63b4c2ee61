# fireprofile in Dafny

This project models the logic of fireprofile, a small desktop utility that
opens each URL in a browser launch profile chosen by the URL's domain. The
model covers three parts:

- **The configuration store** (`ConfigManager`): an ordered list of profiles
  (`name`, `command`) and a domain table that maps a domain to a profile name.
  In Python the table is an insertion-ordered dict. Here it is a sequence of
  `(domain, profile)` pairs whose keys are unique, which is the class
  invariant `Valid()`. Assigning to a dict keeps an existing key in its place
  and appends a new key (`Put`). Deleting a key filters it out
  (`WithoutKey`). Removing a profile also removes every rule that points at
  it (`WithoutValue`). The backing file is the field `file`. It is `None`
  while no file exists, and every save stores the whole configuration in it.
- **URL routing** (the URL branch of `main`). The rules are searched in
  insertion order, and the first rule whose key equals the host, or is a
  suffix of it that starts at a dot, wins (`Resolution`, and the loop `Resolve`).
  A launch happens only when the resolved name is non-empty and some profile
  has that name. The first such profile's command, a space and the URL make
  the command string (`LaunchCommand`). When no launch happens, the profile
  picker's answer is used. Remembering the choice stores a rule for the
  host's last two labels (`ParentDomain`). A host without a dot gets no rule.
- **The editor's data rules** (`ConfigWindow`). Adding a profile or a domain
  rejects fields that are blank after `strip()`. "Save Changes" rebuilds the
  profile list from the table rows. It keeps the filled rows in row order and
  leaves the domain rules alone, so renaming a profile does not update the
  rules that name it.

Files: `seqs.dfy` (Option, order-preserving filter, subsequences),
`text.dfy` (Python's `strip`, `split('.')`, `'.'.join`, `endswith`),
`store.dfy` (module `Store`), `router.dfy` (module `Router`), `editor.dfy`
(module `Editor`).

Three consequences of the code are worth stating outright:

- Resolution is a single pass in insertion order, with no exact-match-first
  pass. With rules `example.com → P1, sub.example.com → P2` in that order,
  host `sub.example.com` gets P1 (`InsertionOrderWins`).
- A host without a dot stores no rule when the choice is remembered
  (`ParentDomainNone`).
- Profile names may repeat and the lookup returns the first profile with the
  name, so a newly added profile is found under its name only when no earlier
  profile has that name (`FindProfileAppend`).

## Model

| member | source | states |
|---|---|---|
| `Seqs.Filter` | fireprofile.py:39-41 | the comprehension result is a subsequence of the input (relative order kept), every kept element passes the test, and each passing element is kept as often as it occurs |
| `Text.TrimIsInfix` | fireprofile.py:245-246 | `strip()` returns the infix left after cutting whitespace from both ends; the result neither starts nor ends with whitespace |
| `Text.TrimEmptyIffAllSpace` | fireprofile.py:248 | a field is blank after `strip()` exactly when every character in it is whitespace |
| `Text.TrimIdempotent` | fireprofile.py:296-297 | stripping an already stripped cell changes nothing |
| `Text.JoinSplit` | fireprofile.py:378-380 | joining the labels of `split('.')` with `.` gives back the host |
| `Text.SplitJoin` | fireprofile.py:378-380 | splitting the join of dot-free labels gives back the labels |
| `Store.Lookup` | fireprofile.py:44-45 | `get` returns nothing exactly when the key is absent, and otherwise a value stored under that key |
| `Store.Put` | fireprofile.py:47-48 | after `d[k] = v` the key reads `v` and every other key reads as before |
| `Store.PutKeys` | fireprofile.py:47-48 | an existing key keeps its position; a new key is appended last |
| `Store.PutUniqueKeys` | fireprofile.py:47-48 | assigning into the table keeps its keys unique |
| `Store.PutNewKey` | fireprofile.py:47-48 | assigning a key not yet present appends exactly that rule at the end |
| `Store.SubseqUniqueKeys` | fireprofile.py:41 | dropping rules from the table keeps its keys unique |
| `Store.LookupWithoutKey` | fireprofile.py:51-53 | after deleting a key it is absent and every other key reads as before |
| `Store.LookupWithoutValue` | fireprofile.py:41 | after the cascade, a key whose rule named the removed profile is absent and every other key reads as before |
| `Store.FindProfile` | fireprofile.py:364 | the lookup returns a listed profile with the requested name, and returns nothing exactly when no profile has that name |
| `Store.FindProfileFirst` | fireprofile.py:364 | the profile found is the first in list order with that name |
| `Store.FindProfileAppend` | fireprofile.py:34-35 | after appending a profile, a name finds the earlier profile when one already has it; otherwise it finds the new profile exactly when the names agree |
| `Store.ConfigManager.constructor` | fireprofile.py:18-25 | loading takes the file's configuration, or the empty configuration (no profiles, no rules) when the file is missing |
| `Store.ConfigManager.SaveConfig` | fireprofile.py:27-29 | the file then holds the whole current configuration |
| `Store.ConfigManager.AddProfile` | fireprofile.py:34-36 | exactly one profile is appended at the end, duplicates allowed; rules are unchanged; the result is saved |
| `Store.ConfigManager.RemoveProfile` | fireprofile.py:38-42 | no profile and no rule names the removed profile afterwards; all other profiles and rules stay, in their original order; the result is saved |
| `Store.ConfigManager.SetDomainProfile` | fireprofile.py:47-49 | the domain then reads the new profile; all other keys read as before; the key keeps its position or is appended last; profiles are unchanged; the result is saved |
| `Store.ConfigManager.RemoveDomain` | fireprofile.py:51-54 | the domain is absent afterwards and all other keys read as before; when it was absent, nothing changes and nothing is saved |
| `Router.Resolve` | fireprofile.py:356-360 | the loop that breaks at the first applicable rule computes `Resolution` |
| `Router.ResolutionIsFirstMatch` | fireprofile.py:357-360 | resolution gives the value of the first rule, in insertion order, whose key equals the host or is a dot-bounded suffix of it; no rule before it applies; and it gives nothing exactly when no rule applies |
| `Router.ResolutionAppend` | fireprofile.py:357-360 | a rule appended last is consulted only when no earlier rule applies |
| `Router.InsertionOrderWins` | fireprofile.py:357-360 | an earlier parent-domain rule beats a later exact rule |
| `Router.SuffixNeedsDot` | fireprofile.py:358 | `notexample.com` does not match key `example.com`; `mail.example.com` does |
| `Router.LaunchCommandSpec` | fireprofile.py:362-366 | a launch happens exactly when the resolved name is non-empty and some profile has it; it uses the first such profile's command, followed by a space and the URL |
| `Router.ParentDomainNone` | fireprofile.py:378-379 | no rule key is derived exactly when the host contains no dot |
| `Router.ParentDomainLabels` | fireprofile.py:378-380 | the derived key consists of exactly the host's last two labels |
| `Router.ParentDomainMatches` | fireprofile.py:358 | the derived key is a rule that applies to the host it came from |
| `Router.ParentDomainExamples` | fireprofile.py:378-380 | `a.b.example.com` derives `example.com`; `localhost` derives nothing |
| `Router.RememberedHostResolves` | fireprofile.py:376-381 | when no rule applied to the host, after the choice is remembered the host resolves to the chosen profile |
| `Router.OpenUrl` | fireprofile.py:348-382 | a matched launch leaves the store unchanged. Otherwise the picker's answer decides. Cancel or an unknown name launches nothing and changes nothing. A known name launches its profile's command; when remembered and the host has a dot, it also stores the parent-domain rule and saves. After that, a host that no rule matched before resolves to the chosen name |
| `Editor.EditedProfilesSnoc` | fireprofile.py:295-300 | processing one more row appends its stripped profile exactly when both fields are non-empty |
| `Editor.EditedProfilesExactly` | fireprofile.py:294-300 | the rebuilt list is a subsequence of the stripped rows. It holds exactly those stripped rows whose name and command are both non-empty. Each entry is already stripped |
| `Editor.ConfigWindow.constructor` | fireprofile.py:90-92 | the window's store is freshly loaded from the file, or empty when the file is missing |
| `Editor.ConfigWindow.AddProfile` | fireprofile.py:244-252 | a profile is added exactly when neither field is all whitespace; the stripped pair is appended and saved; otherwise nothing changes |
| `Editor.ConfigWindow.AddDomain` | fireprofile.py:266-274 | a rule is added exactly when the domain field is not all whitespace; the stripped domain is mapped to the combo box's text; otherwise nothing changes |
| `Editor.ConfigWindow.DeleteProfile` | fireprofile.py:257-263 | when confirmed, the profile and its rules are removed and saved; otherwise nothing changes |
| `Editor.ConfigWindow.DeleteDomain` | fireprofile.py:278-284 | when confirmed and present, the rule is deleted and saved; otherwise nothing changes |
| `Editor.ConfigWindow.SaveProfileChanges` | fireprofile.py:292-304 | the profile list becomes exactly the filled, stripped rows in row order; rules are untouched; the result is saved |

## Left out

- The Qt user interface: widgets, layouts, tables, `refresh_tables`, message boxes, `edit_profile`, `save_domain_changes`, the signal handler, the timer and the event loop. None of it changes the configuration. The texts the widgets hold, the Yes/No answers and the picker's answer become parameters.
- `update_domain_profile` (fireprofile.py:240-242) only calls `set_domain_profile` and is covered by `SetDomainProfile`.
- JSON and file I/O. The file is the value `file: Option<Config>`, and a save stores the configuration in it unchanged. So reading back what was saved gives the same configuration, but serialisation itself is not modelled. Neither is the exception that `json.load` raises on a malformed or unreadable file. Nor is a failed write in `save_config` (fireprofile.py:28-29). There the exception propagates after the in-memory change has already been made. The file is left with its old contents if `open` fails, or truncated or partly written if `json.dump` fails. The model's `SaveConfig` always ends with `file == Some(Current())`.
- `Store.ConfigManager.constructor` requires the stored domain table to have unique keys. `json.load` always builds the table as a dict, so a duplicate key in the file text has already been merged before the program sees it; that merge is not modelled.
- A file without a `"profiles"` or `"domains"` key. `get_profiles` would default to an empty list, and a method that indexes the missing key raises `KeyError`. With `"profiles"` missing, `get_domain_profile`, `set_domain_profile` and `remove_domain` still work, and `save_profile_changes` (fireprofile.py:303) recreates the key. With `"domains"` missing, `add_profile` still works, while `remove_profile` (fireprofile.py:41), `refresh_tables` (fireprofile.py:210) and the URL loop (fireprofile.py:357) raise. Here a configuration always has both parts, so `get_profiles` is a read of the `profiles` field.
- `urlparse(url).netloc`. The host is an input string. A real netloc can carry a port or user information, and such a host is matched as a whole string.
- `os.system` and `sys.exit`. The model returns the command string that the shell would receive.
- `Router.OpenUrl`: the picker's name is any string. In the program it is one of the profile names shown in the combo box, or "" when there are none.
