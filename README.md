# Offline Minecraft launcher: profile, account and launch bookkeeping

This project models the bookkeeping core of `launcher.py`, a Tk desktop launcher for
Minecraft. That core covers:

- the `MinecraftLauncher` window's profile table and account table, the launch tab's
  entries, the two selections (`profile_var`, `account_var`) and the two list boxes;
- the account dialog: how it fills its fields from an initial record, how the mode switch
  clears the token, and the record OK produces;
- the part of `launch_minecraft` that runs before the launch thread starts: the checks that
  stop a launch, how the numbers are parsed with their fallbacks, and the options handed to
  the command builder.

The modules follow the program's structure.

- `Text`: Python's `str.strip`, `str.split`, `int()` and `str()` on the strings the
  launcher handles. `int()` accepts surrounding whitespace and one leading sign. `str()`
  and `int()` are proved to round-trip.
- `Ordering`: `sorted()` on string keys, in code-point order. It is proved to list every
  key exactly once, in increasing order.
- `Profiles`: profile records, and the launch tab they are loaded into and saved from. It
  also covers the `Profile<n>` names `new_profile` tries.
- `Accounts`: account records and the `"name [mode]"` list-box entries. The selected name
  is read back from an entry with `item.split()[0]`.
- `AccountDialog`: the dialog's fields, `on_mode_change` and `on_ok`.
- `Launch`: the pre-thread part of `launch_minecraft`, as a function from the launch tab,
  the selected account and the account table to a launch plan or one of three errors.
- `Launcher`: the class `MinecraftLauncher`, whose methods change its tables, selections,
  entries and list boxes in place. It also holds the module-level renaming loop of
  `new_profile`, and two scenarios: a first profile in an empty table, and a restart from
  the saved configuration.

A dictionary read from the JSON configuration may lack keys. Every record field is
therefore an `Option`, and each reader supplies the default the code uses at that point.

Tk interactions become parameters:

- the list-box selection is `Option<nat>`;
- yes/no answers are `bool`;
- the dialog's fields when OK is pressed are `Option<DialogFields>`, with `None` meaning
  Cancel;
- the chosen folder is a `string`, empty when cancelled.

Three behaviours of the code are stated outright in the model:

- **Saving does no range check.** `save_current_profile` rejects only number entries that
  are not integers. It stores a RAM of 0 or a negative amount as typed
  (`Profiles.SavedRamUnchecked`).
- **A restart does not re-select the last profile.** At start-up, the profile saved as
  `last_profile` is loaded into the launch tab but not selected: `profile_var` stays empty
  (`Launcher.MinecraftLauncher.constructor`, `Launcher.RestartScenario`).
- **Names are read back as their first word.** The account list box recovers only the
  first whitespace-separated word of a username (`Accounts.ItemNameIsFirstWord`,
  `Accounts.ItemNameOfSpacedName`). Usernames without whitespace are recovered exactly
  (`Accounts.ListingNamesAreKeys`).

## Model

| member | source | states |
|---|---|---|
| Text.Strip | launcher.py:560 | `strip()` leaves no outer whitespace; the result is empty exactly when the text is all whitespace; a string already without outer whitespace is unchanged |
| Text.StripPadded | launcher.py:560 | stripping whitespace padding around a non-empty stripped word gives back the word |
| Text.StripIdempotent | launcher.py:120 | stripping twice is stripping once (`on_ok` stores stripped names that `strip()` again on the next OK) |
| Text.Split | launcher.py:609 | `split()` yields non-empty words without whitespace, and no words exactly when the text is all whitespace |
| Text.SplitWordThen | launcher.py:304 | a whitespace-free word followed by whitespace splits into that word, then the rest's words |
| Text.SplitJoinWords | launcher.py:609 | words joined by single spaces split back into the same words |
| Text.IntToString | launcher.py:484 | `str()` of an integer is non-empty, has no whitespace, and starts with `-` exactly for a negative number |
| Text.ParseNumeral | launcher.py:571 | once the whitespace is gone, `int()` accepts exactly an optional sign followed by one or more digits, and nothing else (`"1 2"`, `"--5"`, `"1-2"` fail): a parsed numeral ends in a digit, a negative one starts with `-`, and digits of any length, with or without a sign, mean their decimal value, negated after `-` (no digit-count limit, see "## Left out") |
| Text.ParseInt | launcher.py:571 | `int()` fails on blank text, and on text holding an information separator (U+001C to U+001F), which `strip()` drops but `int()` does not skip |
| Text.ParseIntShape | launcher.py:571 | a parsed text ends in a digit after stripping; a negative value has a leading `-`; a stripped run of digits parses to its decimal value; and only a stripped text that is digits, or a sign followed by digits, parses |
| Text.ParseIntOfIntToString | launcher.py:484-485 | `int(str(i)) == i` for every integer |
| Text.ParseIntOfDigits | launcher.py:571 | a run of digits of any length, leading zeros included, parses to its decimal value bare or after `+`, and to its negation after `-` (no digit-count limit, see "## Left out") |
| Text.ParseIntOfStripped | launcher.py:571 | without an information separator, `int()` ignores surrounding whitespace; with one anywhere, it fails |
| Text.ParseIntPadded | launcher.py:571 | `str(i)` padded on either side with whitespace `int()` skips parses to `i` |
| Text.ParseIntPlusSign | launcher.py:571 | a leading `+` before the digits is accepted, with the same padding allowed |
| Text.ParseIntRejectsStray | launcher.py:571-573 | a character anywhere in the text that is neither whitespace, a digit nor a sign makes `int()` fail |
| Text.ParseIntRejectsSeparator | launcher.py:571-573 | an example: the entry `"\x1c5"` does not parse, as `int()` raises on it; the general rule, a separator anywhere, is an ensures of `Text.ParseInt` |
| Text.TrimLeftKeeps | launcher.py:560 | `lstrip()` never drops a character that is not whitespace |
| Text.TrimRightKeeps | launcher.py:560 | `rstrip()` never drops a character that is not whitespace |
| Text.StripNoSeparator | launcher.py:560 | what `strip()` keeps holds no information separator the text lacks |
| Ordering.SortedKeys | launcher.py:277 | `sorted(keys)` has as many entries as there are keys, and each entry is a key |
| Ordering.SortedKeysComplete | launcher.py:277 | every key appears in `sorted(keys)` and nothing else does |
| Ordering.SortedKeysIncreasing | launcher.py:413 | `sorted(keys)` is strictly increasing in code-point order, so no key is listed twice |
| Ordering.StrLeTotal | launcher.py:413 | any two strings are comparable in the order `sorted()` uses |
| Ordering.StrLeTransitive | launcher.py:413 | that order is transitive |
| Ordering.StrLeAntisymmetric | launcher.py:413 | that order is antisymmetric |
| Profiles.LoadedForm | launcher.py:466-491 | `load_profile` clears the tab for an empty or unknown name; otherwise it shows each stored value, with `""`, `False`, 2, 854 and 480 for missing keys and the numbers rendered by `str()` |
| Profiles.LoadedNumbers | launcher.py:484-491 | the loaded RAM, width and height entries parse back to the stored numbers or their defaults |
| Profiles.EntryNumber | launcher.py:501-505 | `int(entry or default)`: an empty entry gives the default; any other text must parse |
| Profiles.SavedRecord | launcher.py:493-506 | the saved record exists exactly when all three number entries are empty or integers; it then holds every key: the stripped username, the version, the parsed numbers, the raw JVM args, the fullscreen flag |
| Profiles.SavedRamUnchecked | launcher.py:501 | any integer RAM entry is stored as typed (zero and negative included); empty size entries store 854x480 |
| Profiles.SavedRejectsNonNumeric | launcher.py:501-505 | a RAM, width or height entry holding any character that is neither whitespace, a digit nor a sign saves nothing |
| Profiles.SaveThenLoad | launcher.py:475-506 | loading a just-saved profile shows the stored values, and saving that form again stores the same record |
| Profiles.EntryNumbersOfStrings | launcher.py:484-505 | entries holding `str()` of three numbers save as those numbers |
| Profiles.SavedRecordOfForm | launcher.py:475-506 | the form showing a complete profile saves back to that same profile, provided its username has no outer whitespace |
| Profiles.LoadThenSave | launcher.py:475-506 | loading a complete, stripped profile and saving the untouched form writes back the same record |
| Profiles.FirstCandidate | launcher.py:426 | in an empty table the first name tried is `Profile1` |
| Profiles.CandidateSetSize | launcher.py:426-428 | the first m names `Profile<n+1>`, `Profile<n+1>_1`, ... are pairwise distinct |
| Profiles.CollisionsBounded | launcher.py:426-428 | a table holding the first k candidates has at least k keys, so the renaming loop ends |
| Accounts.ItemName | launcher.py:304 | `item.split()[0]` fails exactly on an all-whitespace entry; otherwise it is a non-empty word without whitespace |
| Accounts.Listing | launcher.py:275-280 | one entry per account, in sorted key order, each `"name [mode]"` with `"offline"` for a missing mode |
| Accounts.ItemNameOfAccountItem | launcher.py:280-304 | a whitespace-free name is read back exactly from its entry |
| Accounts.ItemNameIsFirstWord | launcher.py:280-304 | any name is read back as its first whitespace-separated word |
| Accounts.ItemNameOfSpacedName | launcher.py:280-304 | the entry of `"John Smith"` reads back as `"John"` |
| Accounts.ListingEntriesHaveNames | launcher.py:316-319 | no list-box entry is all whitespace, so reading a name from it never raises `IndexError` |
| Accounts.ListingNamesAreKeys | launcher.py:303-305 | with whitespace-free keys, entry i reads back as the i-th sorted key, which is an account |
| AccountDialog.OnModeChange | launcher.py:112-117 | choosing `"offline"` empties the token; any other mode keeps it; the other fields are untouched |
| AccountDialog.OpenDialog | launcher.py:65-100 | the fields start from the initial record (a missing key reads as `""`); with no initial record, or an empty one, they start as an empty offline form; the constructor's `on_mode_change` call then applies |
| AccountDialog.OnOk | launcher.py:119-133 | no record exactly when the stripped username is empty; otherwise the stripped username, the mode, a stripped token only in `"online"` mode, and the stripped skin or `None` when blank |
| AccountDialog.OnOkWellFormed | launcher.py:119-133 | every record the dialog produces has a non-empty, stripped username, and no token unless it is online |
| AccountDialog.ReopenUnchanged | launcher.py:298-311 | editing an account the dialog produced and pressing OK unchanged gives back the same record |
| Launch.RamGb | launcher.py:570-573 | the parsed RAM entry, or 2 on `ValueError` |
| Launch.WindowSize | launcher.py:577-581 | both sizes parsed, or 854x480 when either fails |
| Launch.JavaArgs | launcher.py:575-609 | the first argument is `-Xmx<ram>G`; the rest are the words of the stripped extra arguments, each non-empty and without whitespace |
| Launch.ResolveLaunch | launcher.py:558-609 | the three errors (blank username, no version, online without token) hold exactly under their conditions, in the order `launch_minecraft` makes them; a successful plan carries the version, the mode, the directory, the stripped username, the placeholder uuid and token, the launcher name and version, the Java args, fullscreen and the parsed window size |
| Launch.MaxHeapFlagRoundTrip | launcher.py:607 | the text between `-Xmx` and `G` parses back to the RAM amount |
| Launch.JavaArgsOfJoinedWords | launcher.py:575-609 | extra arguments typed as words separated by single spaces reach the JVM as exactly those words, after the RAM flag |
| Launch.LaunchOfSavedProfile | launcher.py:493-609 | a saved and reloaded profile launches with its stored version, username, RAM and window size; no fallback value applies |
| Launch.DialogAccountPassesTokenCheck | launcher.py:583-594 | an account from the dialog, offline or online with a non-blank token, never stops a launch at the token check |
| Launcher.FreeProfileName | launcher.py:426-428 | the name is not in the table; it is the first free candidate; at most n names are rejected (n the number of profiles) |
| Launcher.MinecraftLauncher.SavedConfig | launcher.py:528-534 | the saved document reads back as the two tables and the selected profile's name |
| Launcher.MinecraftLauncher.constructor | launcher.py:159-170 | the tables come from the configuration or are empty; the directory is the script's; the fetched versions fill the version combobox; the last profile is loaded into the launch tab; nothing is selected; both list boxes show their tables |
| Launcher.MinecraftLauncher.Restart | launcher.py:159-170 | starting again from the saved configuration brings back both tables, loads the saved selected profile without selecting it, and resets the directory to the script's |
| Launcher.MinecraftLauncher.LoadVersions | launcher.py:541-556 | the fetched ids become the version choices and the last one becomes the selected version; with no ids the selection is kept; an entry without an id changes nothing |
| Launcher.MinecraftLauncher.ClearLaunchFields | launcher.py:466-473 | the launch tab is cleared |
| Launcher.MinecraftLauncher.LoadProfile | launcher.py:475-491 | the launch tab shows `LoadedForm` of the name |
| Launcher.MinecraftLauncher.RefreshProfileList | launcher.py:411-414 | the profile list box shows the sorted names |
| Launcher.MinecraftLauncher.RefreshAccountList | launcher.py:275-285 | the account list box shows `Listing(accounts)`; the selected account is reset to `""` when no account has its name |
| Launcher.MinecraftLauncher.NewProfile | launcher.py:425-441 | the table gains exactly the free name, with the default record for the selected version; the list box stays in sync; the new profile is loaded |
| Launcher.MinecraftLauncher.ChooseProfile | launcher.py:406-409 | the chosen name is selected and loaded when such a profile exists; the tab is unchanged otherwise (the profile combobox is never given any values, so the user cannot in fact pick from it) |
| Launcher.MinecraftLauncher.SelectProfile | launcher.py:416-451 | the chosen entry is loaded and selected; nothing changes without a selection |
| Launcher.MinecraftLauncher.SaveCurrentProfile | launcher.py:493-509 | outcome and new table for each case: no selected profile, a number entry that is not an integer, or exactly the selected key overwritten by `SavedRecord` of the tab; the list box stays in sync |
| Launcher.MinecraftLauncher.DeleteProfile | launcher.py:453-464 | when confirmed, exactly the chosen profile is removed; a deleted selected profile also clears the selection and the tab; otherwise nothing changes |
| Launcher.MinecraftLauncher.StoreAccount | launcher.py:294-296 | the table maps the name to the record; the list box is refreshed |
| Launcher.MinecraftLauncher.AddAccount | launcher.py:287-296 | cancelled or blank: no change; a duplicate username: no change; otherwise exactly the new account is added; the list box stays in sync |
| Launcher.MinecraftLauncher.EditAccount | launcher.py:298-311 | an existing account named by the chosen entry is replaced by the dialog's record, with the key set unchanged; anything else leaves the table as it was |
| Launcher.MinecraftLauncher.DeleteAccount | launcher.py:313-323 | when confirmed, the name read from the entry is removed (a no-op if no account has it); otherwise nothing changes |
| Launcher.MinecraftLauncher.SelectAccountItem | launcher.py:325-333 | the name read from the entry is selected and copied into the username entry |
| Launcher.MinecraftLauncher.SelectAccount | launcher.py:335-340 | the chosen account is selected, and copied into the username entry when it exists |
| Launcher.MinecraftLauncher.BrowseMinecraftDir | launcher.py:511-517 | a chosen folder becomes the Minecraft directory and the versions are loaded again, as `LoadVersions` states; a cancelled dialog changes nothing |
| Launcher.MinecraftLauncher.Launch | launcher.py:558-609 | the launch outcome is `ResolveLaunch` of the current tab, selected account, account table and directory |

## Left out

- JSON file I/O (`load_config`, `save_config`): the configuration is a `Config` value. `SavedConfig` keeps the keys read back at start-up. A missing or unreadable file reads as an empty configuration. A JSON `null` is treated like a missing key.
- `minecraft_dir` is written to the configuration but never read back at start-up. The directory is a constructor parameter, standing for the script's folder.
- `history`, `dark_mode`, the theme, the log tab and the icons. They do not affect profiles, accounts or launches.
- `fetch_minecraft_versions` and `install_version`: network and file-system access. The ids read from the fetched manifest are a parameter of `LoadVersions`, the constructor and `BrowseMinecraftDir`; a failed fetch yields no ids, and `None` stands for a manifest entry without an id. The fetch ignores its directory argument. At start-up the version entry is then set again by the last-profile load, whatever the fetch returned.
- Launcher.MinecraftLauncher.Launch: the launch thread reads `minecraft_dir` when it runs (launcher.py:615, 641), not when the button is pressed. The model takes the directory at the moment of the click, so a folder change made while the thread is starting is not captured.
- The launch thread: installation and its 300-second wait (launcher.py:625-632), the command builder, `subprocess` and its output. Only the options handed to the thread are modelled.
- The `auth` dictionary built at launcher.py:596-605. It is never used after it is built.
- Tk widgets. Selections, dialog answers and typed text are method parameters. `browse_skin`'s file dialog is the skin field's value. The profile combobox's value is `ChooseProfile`'s parameter; since the code never fills that combobox (launcher.py:202-204), `RestartScenario` picks its profile from the profile list box.
- The dialog's `initial` record when editing an account. `EditAccount` takes the fields as they are when OK is pressed, so any edit the user could make is covered.
- Text.ParseInt: does not accept `_` digit separators or non-ASCII digits, which Python's `int()` also accepts, nor does it apply the 4300-digit limit of CPython 3.11+ (and 3.10.7+), above which `int()` raises `ValueError`; the model parses digit runs of any length, so for such an entry it launches with the typed RAM or size where the code falls back to the defaults, and saves where the code saves nothing. Non-ASCII whitespace around the digits is skipped as `strip()` skips it.
- The list-box highlight `new_profile` sets (`selection_set(tk.END)`). It marks the last sorted entry, which is not the new profile when a later name exists, and it selects nothing in the model's terms.
- `token_test.py` and any other file besides `launcher.py` are not part of this model.
