/** Account records and the account list box: entries `"name [mode]"` in sorted key order,
    from which the selected name is read back as the first whitespace-separated word
    (launcher.py, `refresh_account_list`, `edit_account`, `delete_account`,
    `on_account_list_select`). */
module Accounts {
  import opened Wrappers
  import opened Text
  import opened Ordering

  /** One value of the `accounts` dictionary; `None` stands for a missing key (or, for the
      token and the skin, a stored `null`). */
  datatype Account = Account(
    username: Option<string>,
    mode: Option<string>,
    token: Option<string>,
    skin: Option<string>)

  /** `account.get("mode", "offline")`. */
  function ModeOf(a: Account): string {
    a.mode.GetOr("offline")
  }

  /** The list-box entry for one account. */
  function AccountItem(name: string, mode: string): string {
    name + " [" + mode + "]"
  }

  /** `item.split()[0]`; `None` stands for the `IndexError` raised on an all-whitespace entry. */
  function ItemName(item: string): (r: Option<string>)
    ensures r.None? <==> AllSpace(item)
    ensures r.Some? ==> r.value != [] && NoSpace(r.value)
  {
    var ts := Split(item);
    if ts == [] then None else Some(ts[0])
  }

  /** What `refresh_account_list` puts in the list box: one entry per account, in sorted key
      order, showing the stored mode or "offline" when there is none. */
  function Listing(accounts: map<string, Account>): (items: seq<string>)
    ensures |items| == |accounts|
    ensures forall i :: 0 <= i < |items| ==>
      var key := SortedKeys(accounts.Keys)[i];
      key in accounts && items[i] == AccountItem(key, ModeOf(accounts[key]))
  {
    var keys := SortedKeys(accounts.Keys);
    seq(|keys|, i requires 0 <= i < |keys| => AccountItem(keys[i], ModeOf(accounts[keys[i]])))
  }

  /** The name is recovered exactly from its entry whenever it is non-empty and holds no
      whitespace. */
  lemma ItemNameOfAccountItem(name: string, mode: string)
    requires name != [] && NoSpace(name)
    ensures ItemName(AccountItem(name, mode)) == Some(name)
  {
    var rest := " [" + mode + "]";
    assert AccountItem(name, mode) == name + rest;
    SplitWordThen(name, rest);
  }

  lemma {:induction false} WordOfConcat(a: string, b: string)
    requires |Word(a)| < |a| || b == [] || IsSpace(b[0])
    ensures Word(a + b) == Word(a)
    decreases |a|
  {
    if a == [] {
      assert a + b == b;
    } else if !IsSpace(a[0]) {
      assert (a + b)[1..] == a[1..] + b;
      WordOfConcat(a[1..], b);
    }
  }

  lemma {:induction false} SplitFirstWordOfConcat(a: string, b: string)
    requires !AllSpace(a)
    requires b == [] || IsSpace(b[0])
    ensures Split(a + b) != [] && Split(a + b)[0] == Split(a)[0]
    decreases |a|
  {
    if IsSpace(a[0]) {
      assert (a + b)[1..] == a[1..] + b;
      assert !AllSpace(a[1..]) by {
        var i :| 0 <= i < |a| && !IsSpace(a[i]);
        assert a[1..][i - 1] == a[i];
      }
      SplitFirstWordOfConcat(a[1..], b);
    } else {
      WordOfConcat(a, b);
    }
  }

  /** For any name with a non-blank character, the list box reads back only the name's first
      word: a name with inner whitespace is not recovered. */
  lemma ItemNameIsFirstWord(name: string, mode: string)
    requires !AllSpace(name)
    ensures ItemName(AccountItem(name, mode)) == Some(Split(name)[0])
  {
    var rest := " [" + mode + "]";
    assert AccountItem(name, mode) == name + rest;
    SplitFirstWordOfConcat(name, rest);
  }

  /** A concrete case: the entry of the account "John Smith" reads back as "John". */
  lemma ItemNameOfSpacedName()
    ensures ItemName(AccountItem("John Smith", "offline")) == Some("John")
  {
    var first, rest := "John", " Smith";
    assert NoSpace(first) by {
      forall i | 0 <= i < |first| ensures !IsSpace(first[i]) {
        assert first[i] in "John";
      }
    }
    assert first + rest == "John Smith";
    assert !IsSpace((first + rest)[0]);
    ItemNameIsFirstWord(first + rest, "offline");
    SplitWordThen(first, rest);
  }

  /** No entry of the list box is all whitespace, so reading a name from it never raises. */
  lemma ListingEntriesHaveNames(accounts: map<string, Account>, i: nat)
    requires i < |Listing(accounts)|
    ensures ItemName(Listing(accounts)[i]).Some?
  {
    var item := Listing(accounts)[i];
    var key := SortedKeys(accounts.Keys)[i];
    assert item == key + " [" + ModeOf(accounts[key]) + "]";
    assert item[|key| + 1] == '[';
  }

  /** When every username key is non-empty and whitespace-free, the names read back from the
      list box are exactly the keys in sorted order, so entry i selects the i-th account. */
  lemma ListingNamesAreKeys(accounts: map<string, Account>, i: nat)
    requires forall k :: k in accounts ==> k != [] && NoSpace(k)
    requires i < |Listing(accounts)|
    ensures ItemName(Listing(accounts)[i]) == Some(SortedKeys(accounts.Keys)[i])
    ensures SortedKeys(accounts.Keys)[i] in accounts
  {
    var key := SortedKeys(accounts.Keys)[i];
    ItemNameOfAccountItem(key, ModeOf(accounts[key]));
  }
}
