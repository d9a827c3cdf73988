/** The launcher window's bookkeeping (launcher.py, `MinecraftLauncher`): the profile and
    account tables it edits in place, the launch tab's fields, the two selections and the
    contents of the two list boxes. */
module Launcher {
  import opened Wrappers
  import opened Text
  import opened Ordering
  import opened Profiles
  import opened Accounts
  import opened AccountDialog
  import opened Launch

  /** The parts of the configuration file the launcher reads back at start-up; `None` is a
      missing key (a missing or unreadable file reads as all `None`). */
  datatype Config = Config(
    profiles: Option<map<string, Profile>>,
    accounts: Option<map<string, Account>>,
    lastProfile: Option<string>)

  datatype SaveOutcome = NoProfileSelected | NotANumber | Saved
  datatype AddOutcome = AddCancelled | DuplicateUsername | Added

  /** The renaming loop of `new_profile`: starting from `Profile<n+1>`, append `_1` while the
      name is taken. The result is free, it is the first free candidate, and since the
      candidates are pairwise distinct no more than n names are rejected. */
  method FreeProfileName(table: map<string, Profile>) returns (name: string, ghost retries: nat)
    ensures name !in table
    ensures name == Candidate(|table|, retries) && retries <= |table|
    ensures forall j :: 0 <= j < retries ==> Candidate(|table|, j) in table
  {
    var count := |table|;
    name := "Profile" + IntToString(count + 1);
    retries := 0;
    assert name == Candidate(count, 0);
    while name in table
      invariant name == Candidate(count, retries)
      invariant forall j :: 0 <= j < retries ==> Candidate(count, j) in table
      invariant retries <= count
      decreases count - retries
    {
      CollisionsBounded(table.Keys, count, retries + 1);
      name := name + "_1";
      retries := retries + 1;
    }
  }

  class MinecraftLauncher {
    var profiles: map<string, Profile>
    var accounts: map<string, Account>
    var minecraftDir: string
    /** The launch tab's entries. */
    var form: LaunchForm
    /** `profile_var`: the profile the Save button writes to. */
    var profileSelection: string
    /** `account_var`: the account the launch uses. */
    var accountSelection: string
    /** Contents of the profile list box. */
    var profileItems: seq<string>
    /** Contents of the account list box. */
    var accountItems: seq<string>
    /** Choices of the version combobox. */
    var versionItems: seq<string>

    /** The profile list box shows the profile table's names in sorted order. */
    ghost predicate ProfilesShown()
      reads this`profiles, this`profileItems
    {
      profileItems == SortedKeys(profiles.Keys)
    }

    /** The account list box shows one entry per account, in sorted order. */
    ghost predicate AccountsShown()
      reads this`accounts, this`accountItems
    {
      accountItems == Listing(accounts)
    }

    /** Both list boxes show the current tables. */
    ghost predicate Valid()
      reads this
    {
      ProfilesShown() && AccountsShown()
    }

    /** `save_config`'s document, restricted to the keys read back at start-up: reading it
        back yields the two tables and the selected profile's name. */
    function SavedConfig(): (c: Config)
      reads this
      ensures c.profiles.GetOr(map[]) == profiles && c.accounts.GetOr(map[]) == accounts
      ensures c.lastProfile.GetOr("") == profileSelection
    {
      Config(Some(profiles), Some(accounts), Some(profileSelection))
    }

    /** Start-up: the tables come from the configuration, the versions fetched by
        `load_versions` fill the version combobox (see `LoadVersions` for `fetched`), the
        last profile is then loaded into the launch tab without being selected, and both
        list boxes are filled. */
    constructor (config: Config, scriptDir: string, fetched: Option<seq<string>>)
      ensures Valid()
      ensures versionItems == fetched.GetOr([])
      ensures profiles == config.profiles.GetOr(map[])
      ensures accounts == config.accounts.GetOr(map[])
      ensures minecraftDir == scriptDir
      ensures form == LoadedForm(profiles, config.lastProfile.GetOr(""))
      ensures profileSelection == "" && accountSelection == ""
    {
      versionItems := fetched.GetOr([]);
      var table := config.profiles.GetOr(map[]);
      profiles := table;
      accounts := config.accounts.GetOr(map[]);
      minecraftDir := scriptDir;
      profileSelection := "";
      accountSelection := "";
      profileItems := SortedKeys(table.Keys);
      form := LoadedForm(table, config.lastProfile.GetOr(""));
      accountItems := Listing(config.accounts.GetOr(map[]));
    }

    /** Closing the launcher after `save_config` and starting it again from the same script
        directory: the tables come back, the saved profile is loaded but not selected, and the
        Minecraft directory is the script directory again (the saved one is not read back). */
    method Restart(scriptDir: string, fetched: Option<seq<string>>) returns (restarted: MinecraftLauncher)
      ensures fresh(restarted) && restarted.Valid()
      ensures restarted.profiles == profiles && restarted.accounts == accounts
      ensures restarted.form == LoadedForm(profiles, profileSelection)
      ensures restarted.profileSelection == "" && restarted.accountSelection == ""
      ensures restarted.minecraftDir == scriptDir && restarted.versionItems == fetched.GetOr([])
    {
      restarted := new MinecraftLauncher(SavedConfig(), scriptDir, fetched);
    }

    /** `load_versions` (also the "Refresh Versions" button). `fetched` is the list of the
        manifest entries' ids, an empty list when the fetch fails, or `None` when an entry has
        no id and the `KeyError` is caught before anything changes. The ids become the
        combobox's choices and the last of them becomes the selected version; with no ids the
        selected version is kept. */
    method LoadVersions(fetched: Option<seq<string>>)
      modifies this`versionItems, this`form
      ensures fetched.None? ==> versionItems == old(versionItems) && form == old(form)
      ensures fetched.Some? ==>
        var ids := fetched.value;
        && versionItems == ids
        && form == if ids != [] then old(form).(version := ids[|ids| - 1]) else old(form)
    {
      if fetched.None? {
        return;
      }
      var ids := fetched.value;
      versionItems := ids;
      if ids != [] {
        form := form.(version := ids[|ids| - 1]);
      }
    }

    /** `clear_launch_fields`. */
    method ClearLaunchFields()
      modifies this`form
      ensures form == ClearedForm
    {
      form := ClearedForm;
    }

    /** `load_profile`: fill the launch tab from a stored profile, or clear it. */
    method LoadProfile(name: string)
      modifies this`form
      ensures form == LoadedForm(profiles, name)
    {
      if name == "" || name !in profiles {
        ClearLaunchFields();
        return;
      }
      form := FormOf(profiles[name]);
    }

    /** `refresh_profile_list`. */
    method RefreshProfileList()
      modifies this`profileItems
      ensures profileItems == SortedKeys(profiles.Keys)
    {
      profileItems := SortedKeys(profiles.Keys);
    }

    /** `refresh_account_list`: one entry per account in sorted order, and the selected account
        is dropped when no account has that name. */
    method RefreshAccountList()
      modifies this`accountItems, this`accountSelection
      ensures accountItems == Listing(accounts)
      ensures accountSelection == if old(accountSelection) in accounts then old(accountSelection) else ""
    {
      var keys := SortedKeys(accounts.Keys);
      SortedKeysComplete(accounts.Keys);
      ghost var listing := Listing(accounts);
      var items: seq<string> := [];
      for i := 0 to |keys|
        invariant items == listing[..i]
      {
        assert listing[i] == AccountItem(keys[i], ModeOf(accounts[keys[i]]));
        items := items + [AccountItem(keys[i], ModeOf(accounts[keys[i]]))];
      }
      assert listing[..|keys|] == listing;
      accountItems := items;
      if accountSelection !in keys {
        accountSelection := "";
      }
    }

    /** `new_profile`: the first free name among `Profile<n+1>`, `Profile<n+1>_1`, ... (n the
        number of profiles, see `FreeProfileName`) gets the default record for the selected
        version, is shown in the list box and is loaded into the launch tab. */
    method NewProfile() returns (name: string, ghost retries: nat)
      requires ProfilesShown()
      modifies this`profiles, this`profileItems, this`form
      ensures ProfilesShown()
      ensures name !in old(profiles)
      ensures name == Candidate(|old(profiles)|, retries) && retries <= |old(profiles)|
      ensures forall j :: 0 <= j < retries ==> Candidate(|old(profiles)|, j) in old(profiles)
      ensures profiles == old(profiles)[name := DefaultProfile(old(form.version))]
      ensures form == LoadedForm(profiles, name)
    {
      name, retries := FreeProfileName(profiles);
      profiles := profiles[name := DefaultProfile(form.version)];
      RefreshProfileList();
      LoadProfile(name);
    }

    /** `on_profile_select`: the name chosen in the launch tab's profile combobox becomes the
        selected profile and is loaded when a profile has that name. */
    method ChooseProfile(name: string)
      modifies this`profileSelection, this`form
      ensures profileSelection == name
      ensures form == if name in profiles then LoadedForm(profiles, name) else old(form)
    {
      profileSelection := name;
      if name in profiles {
        LoadProfile(name);
      }
    }

    /** `edit_profile` / `on_profile_list_select`: the chosen list-box entry is loaded and
        becomes the selected profile; nothing happens without a selection. */
    method SelectProfile(sel: Option<nat>)
      requires sel.Some? ==> sel.value < |profileItems|
      modifies this`form, this`profileSelection
      ensures sel.None? ==> form == old(form) && profileSelection == old(profileSelection)
      ensures sel.Some? ==>
        var name := profileItems[sel.value];
        form == LoadedForm(profiles, name) && profileSelection == name
    {
      if sel.None? {
        return;
      }
      var name := profileItems[sel.value];
      LoadProfile(name);
      profileSelection := name;
    }

    /** `save_current_profile`: with no selected profile, or with a number entry that is not
        an integer, nothing changes; otherwise exactly the selected key is overwritten with
        the record built from the launch tab. */
    method SaveCurrentProfile() returns (outcome: SaveOutcome)
      requires ProfilesShown()
      modifies this`profiles, this`profileItems
      ensures ProfilesShown()
      ensures outcome == NoProfileSelected <==> old(profileSelection) == ""
      ensures outcome == NotANumber <==> old(profileSelection) != "" && SavedRecord(old(form)).None?
      ensures outcome != Saved ==> profiles == old(profiles)
      ensures outcome == Saved ==>
        profiles == old(profiles)[old(profileSelection) := SavedRecord(old(form)).value]
    {
      var name := profileSelection;
      if name == "" {
        return NoProfileSelected;
      }
      var record := SavedRecord(form);
      if record.None? {
        return NotANumber;
      }
      profiles := profiles[name := record.value];
      RefreshProfileList();
      outcome := Saved;
    }

    /** `delete_profile`: when confirmed, the chosen entry's profile is removed; if it was the
        selected profile, the selection and the launch tab are cleared. */
    method DeleteProfile(sel: Option<nat>, confirmed: bool)
      requires ProfilesShown()
      requires sel.Some? ==> sel.value < |profileItems|
      modifies this`profiles, this`profileItems, this`profileSelection, this`form
      ensures ProfilesShown()
      ensures sel.None? || !confirmed ==>
        profiles == old(profiles) && form == old(form) && profileSelection == old(profileSelection)
      ensures sel.Some? && confirmed ==>
        var name := old(profileItems)[sel.value];
        && name in old(profiles)
        && profiles == old(profiles) - {name}
        && (old(profileSelection) == name ==> profileSelection == "" && form == ClearedForm)
        && (old(profileSelection) != name ==>
              profileSelection == old(profileSelection) && form == old(form))
    {
      if sel.None? || !confirmed {
        return;
      }
      var name := profileItems[sel.value];
      profiles := profiles - {name};
      RefreshProfileList();
      if profileSelection == name {
        profileSelection := "";
        ClearLaunchFields();
      }
    }

    /** Stores an account under a username and refreshes the list box, as `add_account` and
        `edit_account` both do. */
    method StoreAccount(name: string, a: Account)
      modifies this`accounts, this`accountItems, this`accountSelection
      ensures accounts == old(accounts)[name := a]
      ensures AccountsShown()
      ensures accountSelection == if old(accountSelection) in accounts then old(accountSelection) else ""
    {
      accounts := accounts[name := a];
      RefreshAccountList();
    }

    /** `add_account`: the dialog's record is stored under its username unless that username
        is taken; a cancelled dialog or a taken username changes nothing. */
    method AddAccount(dialog: Option<DialogFields>) returns (outcome: AddOutcome)
      requires AccountsShown()
      modifies this`accounts, this`accountItems, this`accountSelection
      ensures AccountsShown()
      ensures dialog.None? || OnOk(dialog.value).None? ==> outcome == AddCancelled
      ensures dialog.Some? && OnOk(dialog.value).Some? ==>
        var a := OnOk(dialog.value).value;
        && (outcome == DuplicateUsername <==> a.username.value in old(accounts))
        && (outcome == Added <==> a.username.value !in old(accounts))
        && (outcome == Added ==> accounts == old(accounts)[a.username.value := a])
      ensures outcome != Added ==>
        accounts == old(accounts) && accountSelection == old(accountSelection)
      ensures outcome == Added ==>
        accountSelection == if old(accountSelection) in accounts then old(accountSelection) else ""
    {
      var result := if dialog.Some? then OnOk(dialog.value) else None;
      if result.None? {
        return AddCancelled;
      }
      var uname := result.value.username.value;
      if uname in accounts {
        return DuplicateUsername;
      }
      StoreAccount(uname, result.value);
      outcome := Added;
    }

    /** `edit_account`: the dialog's record replaces the one under the name read from the
        chosen entry, keeping that key; nothing happens without a selection, when that name is
        not a key, or when the dialog is cancelled. */
    method EditAccount(sel: Option<nat>, dialog: Option<DialogFields>)
      requires AccountsShown()
      requires sel.Some? ==> sel.value < |accountItems|
      modifies this`accounts, this`accountItems, this`accountSelection
      ensures AccountsShown()
      ensures accounts.Keys == old(accounts.Keys)
      ensures
        if sel.Some? && ItemName(old(accountItems)[sel.value]).Some?
           && ItemName(old(accountItems)[sel.value]).value in old(accounts)
           && dialog.Some? && OnOk(dialog.value).Some?
        then
          && accounts == old(accounts)[ItemName(old(accountItems)[sel.value]).value := OnOk(dialog.value).value]
          && accountSelection == if old(accountSelection) in accounts then old(accountSelection) else ""
        else accounts == old(accounts) && accountSelection == old(accountSelection)
    {
      if sel.None? {
        return;
      }
      var accName := ItemName(accountItems[sel.value]);
      if accName.None? || accName.value !in accounts {
        return;
      }
      var result := if dialog.Some? then OnOk(dialog.value) else None;
      if result.Some? {
        StoreAccount(accName.value, result.value);
      }
    }

    /** `delete_account`: when confirmed, the name read from the chosen entry is removed from
        the table, which is left as it was if no account has that name. */
    method DeleteAccount(sel: Option<nat>, confirmed: bool)
      requires AccountsShown()
      requires sel.Some? ==> sel.value < |accountItems|
      modifies this`accounts, this`accountItems, this`accountSelection
      ensures AccountsShown()
      ensures
        if sel.Some? && ItemName(old(accountItems)[sel.value]).Some? && confirmed then
          && accounts == old(accounts) - {ItemName(old(accountItems)[sel.value]).value}
          && accountSelection == if old(accountSelection) in accounts then old(accountSelection) else ""
        else accounts == old(accounts) && accountSelection == old(accountSelection)
    {
      if sel.None? {
        return;
      }
      var accName := ItemName(accountItems[sel.value]);
      if accName.None? || !confirmed {
        return;
      }
      accounts := accounts - {accName.value};
      RefreshAccountList();
    }

    /** `on_account_list_select`: the name read from the chosen entry becomes the selected
        account and is copied into the username entry. */
    method SelectAccountItem(sel: Option<nat>)
      requires sel.Some? ==> sel.value < |accountItems|
      modifies this`accountSelection, this`form
      ensures
        if sel.Some? && ItemName(accountItems[sel.value]).Some? then
          var name := ItemName(accountItems[sel.value]).value;
          accountSelection == name && form == old(form).(username := name)
        else accountSelection == old(accountSelection) && form == old(form)
    {
      if sel.None? {
        return;
      }
      var accName := ItemName(accountItems[sel.value]);
      if accName.None? {
        return;
      }
      accountSelection := accName.value;
      form := form.(username := accName.value);
    }

    /** `on_account_select`: picking an account in the launch tab's combobox selects it and,
        when such an account exists, copies its name into the username entry. */
    method SelectAccount(name: string)
      modifies this`accountSelection, this`form
      ensures accountSelection == name
      ensures form == if name in accounts then old(form).(username := name) else old(form)
    {
      accountSelection := name;
      if name in accounts {
        form := form.(username := name);
      }
    }

    /** `browse_mc_dir`: a chosen folder becomes the Minecraft directory and the versions are
        loaded again (`fetched` is what that load reads, as for `LoadVersions`); a cancelled
        folder dialog (an empty answer) changes nothing. */
    method BrowseMinecraftDir(selected: string, fetched: Option<seq<string>>)
      modifies this`minecraftDir, this`versionItems, this`form
      ensures selected == "" ==>
        minecraftDir == old(minecraftDir) && versionItems == old(versionItems) && form == old(form)
      ensures selected != "" && fetched.None? ==>
        minecraftDir == selected && versionItems == old(versionItems) && form == old(form)
      ensures selected != "" && fetched.Some? ==>
        var ids := fetched.value;
        && minecraftDir == selected
        && versionItems == ids
        && form == if ids != [] then old(form).(version := ids[|ids| - 1]) else old(form)
    {
      if selected != "" {
        minecraftDir := selected;
        LoadVersions(fetched);
      }
    }

    /** The checks `launch_minecraft` makes and the plan it hands to its thread. */
    method Launch() returns (r: Result<LaunchPlan, LaunchError>)
      ensures r == ResolveLaunch(form, accountSelection, accounts, minecraftDir)
    {
      r := ResolveLaunch(form, accountSelection, accounts, minecraftDir);
    }
  }

  /** With an empty profile table the first new profile is `Profile1`, holding the defaults
      for the selected version; it is the only list-box entry and selecting it selects it. */
  method NewProfileScenario(app: MinecraftLauncher)
    requires app.ProfilesShown() && app.profiles == map[] && app.form.version == "1.20.1"
    modifies app
  {
    var name, retries := app.NewProfile();
    FirstCandidate();
    assert name == "Profile1";
    assert app.profiles == map["Profile1" := DefaultProfile("1.20.1")];
    assert app.profileItems == ["Profile1"] by {
      assert |app.profileItems| == 1 && app.profileItems[0] in app.profiles;
    }
    app.SelectProfile(Some(0));
    assert app.profileSelection == "Profile1";
  }

  /** Picking "Profile1" in the profile list box and restarting from the saved
      configuration brings back the tables and reloads that profile into the launch tab,
      though it is not selected again. */
  method RestartScenario(profiles: map<string, Profile>)
    requires "Profile1" in profiles && profiles["Profile1"].ramGb == Some(4)
  {
    var app := new MinecraftLauncher(Config(Some(profiles), None, None), "/games/minecraft", None);
    SortedKeysComplete(profiles.Keys);
    assert "Profile1" in app.profileItems;
    var i :| 0 <= i < |app.profileItems| && app.profileItems[i] == "Profile1";
    app.SelectProfile(Some(i));
    assert app.profileSelection == "Profile1";
    var restarted := app.Restart("/games/minecraft", None);
    assert restarted.profiles == profiles && restarted.profileSelection == "";
    assert restarted.form == FormOf(profiles["Profile1"]);
    LoadedNumbers(profiles, "Profile1");
    assert ParseInt(restarted.form.ram) == Some(4);
  }
}
