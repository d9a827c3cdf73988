/** The account dialog (launcher.py, `AccountDialog`): how its fields are filled from an
    existing record, the mode switch that clears the token, and the record OK produces. */
module AccountDialog {
  import opened Wrappers
  import opened Text
  import opened Accounts

  /** The dialog's four text variables: username, mode (combobox), token and skin path. */
  datatype DialogFields = DialogFields(username: string, mode: string, token: string, skin: string)

  /** Python truthiness of the `initial` dictionary: it is false only when it has no key. */
  predicate HasAnyKey(a: Account) {
    a.username.Some? || a.mode.Some? || a.token.Some? || a.skin.Some?
  }

  /** `on_mode_change`: choosing "offline" empties the token; any other mode keeps it. */
  function OnModeChange(f: DialogFields): (g: DialogFields)
    ensures g.username == f.username && g.mode == f.mode && g.skin == f.skin
    ensures f.mode == "offline" ==> g.token == ""
    ensures f.mode != "offline" ==> g.token == f.token
  {
    if f.mode == "offline" then f.(token := "") else f
  }

  /** The fields when the dialog opens: the initial record's values (a missing key reads as
      the empty string), or an empty offline form when there is no initial record or it has
      no key at all (an empty dict is false in Python), followed by
      the `on_mode_change` call the constructor makes. */
  function OpenDialog(initial: Option<Account>): (f: DialogFields)
    ensures initial.None? ==> f == DialogFields("", "offline", "", "")
    ensures initial.Some? && !HasAnyKey(initial.value) ==> f == DialogFields("", "offline", "", "")
    ensures initial.Some? && HasAnyKey(initial.value) ==>
      var a := initial.value;
      && f.username == a.username.GetOr("")
      && f.mode == a.mode.GetOr("")
      && f.skin == a.skin.GetOr("")
      && f.token == (if a.mode == Some("offline") then "" else a.token.GetOr(""))
  {
    var raw :=
      if initial.Some? && HasAnyKey(initial.value) then
        var a := initial.value;
        DialogFields(a.username.GetOr(""), a.mode.GetOr(""), a.token.GetOr(""), a.skin.GetOr(""))
      else
        DialogFields("", "offline", "", "");
    OnModeChange(raw)
  }

  /** `on_ok`: no record for a username that is blank after stripping; otherwise the stripped
      username, the mode, the stripped token only in "online" mode, and the stripped skin path
      or `None` when it is blank. */
  function OnOk(f: DialogFields): (r: Option<Account>)
    ensures r.None? <==> AllSpace(f.username)
    ensures r.Some? ==>
      var a := r.value;
      && a.username == Some(Strip(f.username))
      && a.mode == Some(f.mode)
      && (f.mode != "online" ==> a.token == None)
      && (f.mode == "online" ==> a.token == Some(Strip(f.token)))
      && (a.skin == None <==> AllSpace(f.skin))
      && (a.skin != None ==> a.skin == Some(Strip(f.skin)))
  {
    var username := Strip(f.username);
    if username == [] then None
    else
      var token := if f.mode == "online" then Some(Strip(f.token)) else None;
      var skin := Strip(f.skin);
      Some(Account(Some(username), Some(f.mode), token, if skin == [] then None else Some(skin)))
  }

  /** Every record the dialog produces has a non-empty username without outer whitespace and,
      unless its mode is "online", no token. */
  lemma OnOkWellFormed(f: DialogFields)
    requires OnOk(f).Some?
    ensures var a := OnOk(f).value;
            && a.username.Some? && a.username.value != [] && Trimmed(a.username.value)
            && (a.mode != Some("online") ==> a.token.None?)
  {
  }

  /** Reopening the dialog on a record it produced and pressing OK without changes yields the
      same record. */
  lemma ReopenUnchanged(f: DialogFields)
    requires OnOk(f).Some?
    ensures OnOk(OpenDialog(OnOk(f))) == OnOk(f)
  {
    var a := OnOk(f).value;
    var g := OpenDialog(Some(a));
    assert HasAnyKey(a);
    var u, t, k := Strip(f.username), Strip(f.token), Strip(f.skin);
    StripIdempotent(f.username);
    assert g.username == u && g.mode == f.mode;
    var token := if f.mode == "online" then Some(t) else None;
    assert a.token == token;
    assert g.token == if f.mode == "online" then t else "";
    if f.mode == "online" {
      StripIdempotent(f.token);
    }
    var skin := if k == [] then None else Some(k);
    assert a.skin == skin;
    assert g.skin == k;
    StripIdempotent(f.skin);
    assert OnOk(g) == Some(Account(Some(u), Some(f.mode), token, skin));
  }
}
