/** The synchronous part of `launch_minecraft` (launcher.py): the checks made before the
    launch thread starts and the options handed to it. */
module Launch {
  import opened Wrappers
  import opened Text
  import opened Profiles
  import opened Accounts
  import opened AccountDialog

  /** The three ways a launch stops with an error box before any thread starts. */
  datatype LaunchError = BlankUsername | NoVersion | MissingToken

  /** The `options_dict` given to the command builder. */
  datatype LaunchOptions = LaunchOptions(
    minecraftDirectory: string,
    username: string,
    uuid: string,
    token: string,
    launcherName: string,
    launcherVersion: string,
    javaArgs: seq<string>,
    fullscreen: bool,
    width: int,
    height: int)

  /** What the launch thread is started with: the version to install and run, the account
      mode it logs, and the options. */
  datatype LaunchPlan = LaunchPlan(version: string, mode: string, options: LaunchOptions)

  const NotAssignedYet := "Not-Assigned-Yet"
  const LauncherName := "AdvancedLauncher"
  const LauncherVersion := "1.0"

  /** `int(ram_entry)` with 2 on `ValueError`. */
  function RamGb(text: string): (ram: int)
    ensures ParseInt(text).Some? ==> ram == ParseInt(text).value
    ensures ParseInt(text).None? ==> ram == DefaultRamGb
  {
    ParseInt(text).GetOr(DefaultRamGb)
  }

  /** Width and height are parsed in one `try`: if either fails, both fall back to 854x480. */
  function WindowSize(width: string, height: string): (size: (int, int))
    ensures ParseInt(width).Some? && ParseInt(height).Some? ==>
      size == (ParseInt(width).value, ParseInt(height).value)
    ensures ParseInt(width).None? || ParseInt(height).None? ==>
      size == (DefaultWidth, DefaultHeight)
  {
    match (ParseInt(width), ParseInt(height))
    case (Some(w), Some(h)) => (w, h)
    case _ => (DefaultWidth, DefaultHeight)
  }

  /** The mode of the selected account: its stored mode, "offline" when it has none or when
      no account of that name exists. */
  function SelectedMode(accounts: map<string, Account>, selected: string): string {
    if selected in accounts then ModeOf(accounts[selected]) else "offline"
  }

  /** The token of the selected account, if it has one. */
  function SelectedToken(accounts: map<string, Account>, selected: string): Option<string> {
    if selected in accounts then accounts[selected].token else None
  }

  /** `not token`: absent or empty. */
  predicate TokenMissing(token: Option<string>) {
    token.None? || token.value == ""
  }

  /** The RAM flag `-Xmx<ram>G`. */
  function MaxHeapFlag(ram: int): string {
    "-Xmx" + IntToString(ram) + "G"
  }

  /** `java_args`: the RAM flag, then the stripped extra arguments split on whitespace. */
  function JavaArgs(ram: int, extra: string): (args: seq<string>)
    ensures |args| >= 1 && args[0] == MaxHeapFlag(ram)
    ensures args[1..] == Split(Strip(extra))
    ensures forall i :: 1 <= i < |args| ==> args[i] != [] && NoSpace(args[i])
  {
    var jvmArgs := Strip(extra);
    [MaxHeapFlag(ram)] + (if jvmArgs != [] then Split(jvmArgs) else [])
  }

  /** The launch tab, the selected account and the account table decide whether a launch
      starts and with what. The checks, in the order `launch_minecraft` makes them: blank
      username, no version, online account without a token. */
  function ResolveLaunch(form: LaunchForm, selected: string, accounts: map<string, Account>,
                         minecraftDir: string): (r: Result<LaunchPlan, LaunchError>)
    ensures r == Failure(BlankUsername) <==> AllSpace(form.username)
    ensures r == Failure(NoVersion) <==> !AllSpace(form.username) && form.version == ""
    ensures r == Failure(MissingToken) <==>
      && !AllSpace(form.username) && form.version != ""
      && SelectedMode(accounts, selected) == "online"
      && TokenMissing(SelectedToken(accounts, selected))
    ensures r.Success? ==>
      var o := r.value.options;
      && r.value.version == form.version && form.version != ""
      && r.value.mode == SelectedMode(accounts, selected)
      && o.minecraftDirectory == minecraftDir
      && o.username == Strip(form.username) && o.username != []
      && o.uuid == NotAssignedYet && o.token == NotAssignedYet
      && o.launcherName == LauncherName && o.launcherVersion == LauncherVersion
      && o.javaArgs == JavaArgs(RamGb(form.ram), form.jvmArgs)
      && o.fullscreen == form.fullscreen
      && (o.width, o.height) == WindowSize(form.width, form.height)
  {
    var username := Strip(form.username);
    if username == [] then Failure(BlankUsername)
    else if form.version == "" then Failure(NoVersion)
    else
      var mode := SelectedMode(accounts, selected);
      var token := SelectedToken(accounts, selected);
      if mode == "online" && TokenMissing(token) then Failure(MissingToken)
      else
        var size := WindowSize(form.width, form.height);
        Success(LaunchPlan(form.version, mode, LaunchOptions(
          minecraftDir, username, NotAssignedYet, NotAssignedYet, LauncherName, LauncherVersion,
          JavaArgs(RamGb(form.ram), form.jvmArgs), form.fullscreen, size.0, size.1)))
  }

  /** The RAM flag carries the amount it was built from: the digits between `-Xmx` and `G`
      parse back to it. */
  lemma MaxHeapFlagRoundTrip(ram: int)
    ensures var flag := MaxHeapFlag(ram);
            |flag| >= 5 && flag[..4] == "-Xmx" && flag[|flag| - 1] == 'G' &&
            ParseInt(flag[4..|flag| - 1]) == Some(ram)
  {
    assert ParseInt(IntToString(ram)) == Some(ram) by {
      ParseIntOfIntToString(ram);
    }
    WrappedNumber("-Xmx", IntToString(ram), "G", ram);
  }

  /** A number wrapped between a prefix and a suffix can be cut back out and parsed. */
  lemma WrappedNumber(pre: string, t: string, post: string, v: int)
    requires ParseInt(t) == Some(v)
    ensures (pre + t + post)[..|pre|] == pre
    ensures (pre + t + post)[|pre|..|pre| + |t|] == t
    ensures ParseInt((pre + t + post)[|pre|..|pre| + |t|]) == Some(v)
  {
    assert (pre + t + post)[..|pre|] == pre;
    MiddleSlice(pre, t, post);
  }

  lemma {:induction false} JoinWordsTrimmed(ts: seq<string>)
    requires forall i :: 0 <= i < |ts| ==> ts[i] != [] && NoSpace(ts[i])
    ensures Trimmed(JoinWords(ts))
    ensures ts != [] ==> JoinWords(ts)[0] == ts[0][0]
  {
    if |ts| > 1 {
      JoinWordsTrimmed(ts[1..]);
      var tail := JoinWords(ts[1..]);
      assert JoinWords(ts) == ts[0] + " " + tail;
      assert JoinWords(ts)[|JoinWords(ts)| - 1] == tail[|tail| - 1];
    }
  }

  /** Extra arguments typed as well-formed words separated by single spaces reach the JVM as
      exactly those words, after the RAM flag. */
  lemma JavaArgsOfJoinedWords(ram: int, ts: seq<string>)
    requires forall i :: 0 <= i < |ts| ==> ts[i] != [] && NoSpace(ts[i])
    ensures JavaArgs(ram, JoinWords(ts)) == [MaxHeapFlag(ram)] + ts
  {
    JoinWordsTrimmed(ts);
    SplitJoinWords(ts);
    var args := JavaArgs(ram, JoinWords(ts));
    assert args == [args[0]] + args[1..];
  }

  /** A profile saved from the launch tab and loaded again launches with exactly the stored
      RAM, window size, username and version; no fallback value is substituted. */
  lemma LaunchOfSavedProfile(profiles: map<string, Profile>, name: string, f: LaunchForm,
                             selected: string, accounts: map<string, Account>, dir: string)
    requires name != ""
    requires SavedRecord(f).Some?
    requires !AllSpace(f.username) && f.version != ""
    requires SelectedMode(accounts, selected) != "online"
    ensures var p := SavedRecord(f).value;
            var r := ResolveLaunch(LoadedForm(profiles[name := p], name), selected, accounts, dir);
            && r.Success?
            && r.value.version == p.version.value
            && r.value.options.username == p.username.value
            && r.value.options.javaArgs[0] == MaxHeapFlag(p.ramGb.value)
            && r.value.options.width == p.width.value
            && r.value.options.height == p.height.value
  {
    var p := SavedRecord(f).value;
    SaveThenLoad(profiles, name, f);
    StripIdempotent(f.username);
  }

  /** An account made by the dialog passes the token check whenever it is offline, or online
      with a token that is not blank: only the username and version checks can stop a launch
      that uses it. */
  lemma DialogAccountPassesTokenCheck(f: DialogFields, form: LaunchForm, name: string,
                                      accounts: map<string, Account>, dir: string)
    requires OnOk(f).Some?
    requires f.mode == "online" ==> !AllSpace(f.token)
    requires !AllSpace(form.username) && form.version != ""
    ensures ResolveLaunch(form, name, accounts[name := OnOk(f).value], dir).Success?
  {
    var table := accounts[name := OnOk(f).value];
    assert SelectedMode(table, name) == f.mode;
    assert f.mode == "online" ==> !TokenMissing(SelectedToken(table, name)) by {
      if f.mode == "online" {
        assert SelectedToken(table, name) == Some(Strip(f.token));
      }
    }
    var r := ResolveLaunch(form, name, table, dir);
    assert r != Failure(BlankUsername) && r != Failure(NoVersion) && r != Failure(MissingToken);
  }
}
