/** Profile records, the launch-tab fields they are loaded into and saved from, and the
    names `new_profile` generates (launcher.py, `MinecraftLauncher`). */
module Profiles {
  import opened Wrappers
  import opened Text

  const DefaultRamGb: int := 2
  const DefaultWidth: int := 854
  const DefaultHeight: int := 480

  /** One value of the `profiles` dictionary. A profile read from the configuration file may
      lack keys; `None` stands for a missing key. */
  datatype Profile = Profile(
    username: Option<string>,
    version: Option<string>,
    ramGb: Option<int>,
    extraJvmArgs: Option<string>,
    fullscreen: Option<bool>,
    width: Option<int>,
    height: Option<int>)

  /** The launch tab's inputs: username entry, version combobox, RAM entry, extra JVM args
      entry, fullscreen checkbox, width entry and height entry, as the text they hold. */
  datatype LaunchForm = LaunchForm(
    username: string,
    version: string,
    ram: string,
    jvmArgs: string,
    fullscreen: bool,
    width: string,
    height: string)

  /** The launch tab after `clear_launch_fields`. */
  const ClearedForm := LaunchForm("", "", "", "", false, "", "")

  /** Every key is present, as in a profile written by `new_profile` or `save_current_profile`. */
  predicate Complete(p: Profile) {
    p.username.Some? && p.version.Some? && p.ramGb.Some? && p.extraJvmArgs.Some? &&
    p.fullscreen.Some? && p.width.Some? && p.height.Some?
  }

  /** The record `new_profile` inserts, for the version currently selected. */
  function DefaultProfile(version: string): Profile {
    Profile(Some(""), Some(version), Some(DefaultRamGb), Some(""), Some(false),
            Some(DefaultWidth), Some(DefaultHeight))
  }

  /** The fields `load_profile` fills in from a stored profile, each key defaulting separately. */
  function FormOf(p: Profile): LaunchForm {
    LaunchForm(
      p.username.GetOr(""),
      p.version.GetOr(""),
      IntToString(p.ramGb.GetOr(DefaultRamGb)),
      p.extraJvmArgs.GetOr(""),
      p.fullscreen.GetOr(false),
      IntToString(p.width.GetOr(DefaultWidth)),
      IntToString(p.height.GetOr(DefaultHeight)))
  }

  /** The launch tab after `load_profile(name)`: cleared for an empty or unknown name,
      otherwise showing the stored values, with the numbers rendered by `str` and 2 GB and
      854x480 for the numbers the profile lacks (that they parse back is `LoadedNumbers`). */
  function LoadedForm(profiles: map<string, Profile>, name: string): (f: LaunchForm)
    ensures name == "" || name !in profiles ==> f == ClearedForm
    ensures name != "" && name in profiles ==>
      var p := profiles[name];
      && f.username == p.username.GetOr("")
      && f.version == p.version.GetOr("")
      && f.ram == IntToString(p.ramGb.GetOr(DefaultRamGb))
      && f.jvmArgs == p.extraJvmArgs.GetOr("")
      && f.fullscreen == p.fullscreen.GetOr(false)
      && f.width == IntToString(p.width.GetOr(DefaultWidth))
      && f.height == IntToString(p.height.GetOr(DefaultHeight))
  {
    if name == "" || name !in profiles then ClearedForm else FormOf(profiles[name])
  }

  /** The number entries of a loaded profile hold its stored numbers, or the defaults. */
  lemma LoadedNumbers(profiles: map<string, Profile>, name: string)
    requires name != "" && name in profiles
    ensures var f, p := LoadedForm(profiles, name), profiles[name];
            && ParseInt(f.ram) == Some(p.ramGb.GetOr(DefaultRamGb))
            && ParseInt(f.width) == Some(p.width.GetOr(DefaultWidth))
            && ParseInt(f.height) == Some(p.height.GetOr(DefaultHeight))
  {
    var p := profiles[name];
    ParseIntOfIntToString(p.ramGb.GetOr(DefaultRamGb));
    ParseIntOfIntToString(p.width.GetOr(DefaultWidth));
    ParseIntOfIntToString(p.height.GetOr(DefaultHeight));
  }

  /** `int(text or default)`: an empty entry means the default, anything else must parse. */
  function EntryNumber(text: string, default: int): (r: Option<int>)
    ensures text == "" ==> r == Some(default)
    ensures text != "" ==> r == ParseInt(text)
  {
    if text == "" then Some(default) else ParseInt(text)
  }

  /** The record `save_current_profile` builds from the launch tab, or `None` when one of the
      three number entries is neither empty nor an integer (`int()` raises and nothing is
      stored). */
  function SavedRecord(f: LaunchForm): (r: Option<Profile>)
    ensures r.Some? <==>
      EntryNumber(f.ram, DefaultRamGb).Some? && EntryNumber(f.width, DefaultWidth).Some? &&
      EntryNumber(f.height, DefaultHeight).Some?
    ensures r.Some? ==>
      var p := r.value;
      && Complete(p)
      && p.username == Some(Strip(f.username))
      && p.version == Some(f.version)
      && p.ramGb == EntryNumber(f.ram, DefaultRamGb)
      && p.extraJvmArgs == Some(f.jvmArgs)
      && p.fullscreen == Some(f.fullscreen)
      && p.width == EntryNumber(f.width, DefaultWidth)
      && p.height == EntryNumber(f.height, DefaultHeight)
  {
    var ram := EntryNumber(f.ram, DefaultRamGb);
    var width := EntryNumber(f.width, DefaultWidth);
    var height := EntryNumber(f.height, DefaultHeight);
    if ram.None? || width.None? || height.None? then None
    else Some(Profile(Some(Strip(f.username)), Some(f.version), ram, Some(f.jvmArgs),
                      Some(f.fullscreen), width, height))
  }

  /** No range check is made on saved numbers: any integer typed in the RAM entry, zero and
      negative amounts included, is stored as it is. */
  lemma SavedRamUnchecked(f: LaunchForm, ram: int)
    requires f.ram == IntToString(ram) && f.width == "" && f.height == ""
    ensures SavedRecord(f).Some? && SavedRecord(f).value.ramGb == Some(ram)
    ensures SavedRecord(f).value.width == Some(DefaultWidth)
    ensures SavedRecord(f).value.height == Some(DefaultHeight)
  {
    ParseIntOfIntToString(ram);
  }

  /** A number entry holding a character that is neither whitespace, a digit nor a sign
      (a letter, a dot, a comma) is not an integer, so nothing is saved. */
  lemma SavedRejectsNonNumeric(f: LaunchForm, i: nat)
    requires || (i < |f.ram| && IsStray(f.ram[i]))
             || (i < |f.width| && IsStray(f.width[i]))
             || (i < |f.height| && IsStray(f.height[i]))
    ensures SavedRecord(f) == None
  {
    if i < |f.ram| && IsStray(f.ram[i]) {
      ParseIntRejectsStray(f.ram, i);
    } else if i < |f.width| && IsStray(f.width[i]) {
      ParseIntRejectsStray(f.width, i);
    } else {
      ParseIntRejectsStray(f.height, i);
    }
  }

  /** Saving the launch tab under `name` and loading `name` again shows exactly what was
      stored, and saving that form once more stores the same record. */
  lemma SaveThenLoad(profiles: map<string, Profile>, name: string, f: LaunchForm)
    requires name != ""
    requires SavedRecord(f).Some?
    ensures var p := SavedRecord(f).value;
            var g := LoadedForm(profiles[name := p], name);
            && g.username == Strip(f.username)
            && g.version == f.version
            && ParseInt(g.ram) == p.ramGb
            && g.jvmArgs == f.jvmArgs
            && g.fullscreen == f.fullscreen
            && ParseInt(g.width) == p.width
            && ParseInt(g.height) == p.height
            && SavedRecord(g) == Some(p)
  {
    var p := SavedRecord(f).value;
    LoadThenSave(profiles[name := p], name);
  }

  /** Number entries showing `str` of three stored numbers read back as those numbers. */
  lemma EntryNumbersOfStrings(f: LaunchForm, ram: int, width: int, height: int)
    requires f.ram == IntToString(ram) && f.width == IntToString(width) && f.height == IntToString(height)
    ensures EntryNumber(f.ram, DefaultRamGb) == Some(ram)
    ensures EntryNumber(f.width, DefaultWidth) == Some(width)
    ensures EntryNumber(f.height, DefaultHeight) == Some(height)
  {
    ParseIntOfIntToString(ram);
    ParseIntOfIntToString(width);
    ParseIntOfIntToString(height);
  }

  /** The fields showing a complete profile whose username has no outer whitespace save
      back as that profile. */
  lemma SavedRecordOfForm(f: LaunchForm, p: Profile)
    requires f == FormOf(p)
    requires Complete(p) && Trimmed(p.username.value)
    ensures SavedRecord(f) == Some(p)
  {
    assert EntryNumber(f.ram, DefaultRamGb) == p.ramGb &&
           EntryNumber(f.width, DefaultWidth) == p.width &&
           EntryNumber(f.height, DefaultHeight) == p.height by {
      EntryNumbersOfStrings(f, p.ramGb.value, p.width.value, p.height.value);
    }
    assert Strip(f.username) == p.username.value;
    var r := SavedRecord(f);
    assert r.Some? && r.value.ramGb == p.ramGb && r.value.width == p.width && r.value.height == p.height;
    assert r.value == p;
  }

  /** Loading a complete profile whose username has no outer whitespace and saving the
      untouched form writes back the very same record. */
  lemma LoadThenSave(profiles: map<string, Profile>, name: string)
    requires name != "" && name in profiles
    requires Complete(profiles[name]) && Trimmed(profiles[name].username.value)
    ensures SavedRecord(LoadedForm(profiles, name)) == Some(profiles[name])
  {
    assert LoadedForm(profiles, name) == FormOf(profiles[name]);
    SavedRecordOfForm(LoadedForm(profiles, name), profiles[name]);
  }

  /** `"_1"` repeated `k` times. */
  function Suffix(k: nat): (s: string)
    ensures |s| == 2 * k
  {
    if k == 0 then "" else Suffix(k - 1) + "_1"
  }

  /** The name `new_profile` tries after `k` collisions, in a table of `count` profiles. */
  function Candidate(count: nat, k: nat): string {
    "Profile" + IntToString(count + 1) + Suffix(k)
  }

  /** In an empty table the first name tried is `Profile1`. */
  lemma FirstCandidate()
    ensures Candidate(0, 0) == "Profile1"
  {
    assert IntToString(1) == [DigitChar(1)] == "1";
  }

  lemma {:induction false} CandidateSetSize(count: nat, m: nat)
    ensures |set j | 0 <= j < m :: Candidate(count, j)| == m
  {
    if m > 0 {
      var prev := set j | 0 <= j < m - 1 :: Candidate(count, j);
      CandidateSetSize(count, m - 1);
      assert (set j | 0 <= j < m :: Candidate(count, j)) == prev + {Candidate(count, m - 1)};
      assert Candidate(count, m - 1) !in prev by {
        forall j | 0 <= j < m - 1 ensures Candidate(count, j) != Candidate(count, m - 1) {
          assert |Candidate(count, j)| < |Candidate(count, m - 1)|;
        }
      }
    }
  }

  /** The candidates are pairwise distinct, so a table can hold at most as many of the first
      candidates as it has keys: the renaming loop of `new_profile` runs at most `|keys|`
      times. */
  lemma CollisionsBounded(keys: set<string>, count: nat, k: nat)
    requires forall j :: 0 <= j < k ==> Candidate(count, j) in keys
    ensures k <= |keys|
  {
    var cands := set j | 0 <= j < k :: Candidate(count, j);
    CandidateSetSize(count, k);
    assert cands <= keys;
    assert |cands| <= |keys| by {
      var rest := keys - cands;
      assert keys == cands + rest;
    }
  }
}
