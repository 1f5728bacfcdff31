/** The settings registry: a list of key/value settings that can be looked up
    by key, registered once and unregistered, and a clean-up of the
    persistent store that drops keys no registered setting owns whenever the
    stored settings version differs from the firmware's
    (lib/SettingsService/src/SettingsService.cpp). The persistent store is
    represented by the list of its keys and the value of its version
    setting. */
module Settings {

  /** A setting; only its key matters to the registry. */
  class KeyValue {
    const key: string

    constructor (key: string)
      ensures this.key == key
    {
      this.key := key;
    }
  }

  /** The first non-null setting in the list whose key equals `key`, or null. */
  function FindByKey(list: seq<KeyValue?>, key: string): (kv: KeyValue?)
    ensures kv == null <==> forall i :: 0 <= i < |list| && list[i] != null ==> list[i].key != key
    ensures kv != null ==> kv.key == key
    ensures kv != null ==>
      exists i :: 0 <= i < |list| && list[i] == kv && forall j :: 0 <= j < i && list[j] != null ==> list[j].key != key
  {
    if list == [] then null
    else if list[0] != null && list[0].key == key then list[0]
    else
      var rest := FindByKey(list[1..], key);
      assert forall i :: 1 <= i < |list| ==> list[i] == list[1..][i - 1];
      rest
  }

  /** Appending a setting does not change what earlier settings answer; a
      key nobody owned is then owned by the appended setting. */
  lemma {:induction false} FindByKeyAppend(list: seq<KeyValue?>, setting: KeyValue?, key: string)
    ensures FindByKey(list + [setting], key) ==
      if FindByKey(list, key) != null then FindByKey(list, key)
      else if setting != null && setting.key == key then setting
      else null
  {
    if list != [] {
      assert (list + [setting])[1..] == list[1..] + [setting];
      FindByKeyAppend(list[1..], setting, key);
    }
  }

  /** The index of the first occurrence of x. */
  function IndexOf(list: seq<KeyValue?>, x: KeyValue?): (i: nat)
    requires x in list
    ensures i < |list| && list[i] == x && x !in list[..i]
  {
    if list[0] == x then 0
    else
      var i := 1 + IndexOf(list[1..], x);
      assert list[..i] == [list[0]] + list[1..][..i - 1];
      i
  }

  /** The list without the first occurrence of x, the rest in order; the
      list itself when x does not occur. */
  function RemoveFirst(list: seq<KeyValue?>, x: KeyValue?): (r: seq<KeyValue?>)
    ensures x !in list ==> r == list
    ensures x in list ==> |r| == |list| - 1
  {
    if x in list then list[..IndexOf(list, x)] + list[IndexOf(list, x) + 1..] else list
  }

  /** Removing the first occurrence takes exactly one x out of the list. */
  lemma RemoveFirstMultiset(list: seq<KeyValue?>, x: KeyValue?)
    requires x in list
    ensures multiset(RemoveFirst(list, x)) == multiset(list) - multiset{x}
  {
    var i := IndexOf(list, x);
    assert list == list[..i] + [x] + list[i + 1..];
  }

  /** Unregistering a setting that was just registered restores the list. */
  lemma RegisterUnregister(list: seq<KeyValue?>, x: KeyValue?)
    requires x !in list
    ensures RemoveFirst(list + [x], x) == list
  {
    var i := IndexOf(list + [x], x);
    assert i == |list|;
    assert (list + [x])[..|list|] == list;
  }

  /** The keys of a list without those in `drop`, in order. */
  function Filter(keys: seq<string>, drop: set<string>): (r: seq<string>)
    ensures |r| <= |keys|
    ensures forall k :: k in r <==> k in keys && k !in drop
    ensures (forall k :: k in keys ==> k !in drop) ==> r == keys
  {
    if keys == [] then []
    else if keys[0] in drop then Filter(keys[1..], drop)
    else
      assert keys == [keys[0]] + keys[1..];
      [keys[0]] + Filter(keys[1..], drop)
  }

  lemma {:induction false} FilterFilter(keys: seq<string>, a: set<string>, b: set<string>)
    ensures Filter(Filter(keys, a), b) == Filter(keys, a + b)
  {
    if keys != [] {
      FilterFilter(keys[1..], a, b);
      if keys[0] !in a {
        assert Filter(keys, a) == [keys[0]] + Filter(keys[1..], a);
        assert Filter(keys, a)[1..] == Filter(keys[1..], a);
      }
    }
  }

  /** A key is obsolete when it is not the version key and no registered
      setting owns it. */
  predicate Obsolete(key: string, list: seq<KeyValue?>, versionKey: string)
  {
    key != versionKey && FindByKey(list, key) == null
  }

  /** The stored keys a clean-up keeps, in order. */
  function Retained(keys: seq<string>, list: seq<KeyValue?>, versionKey: string): (r: seq<string>)
    ensures forall k :: k in r <==> k in keys && !Obsolete(k, list, versionKey)
  {
    if keys == [] then []
    else if Obsolete(keys[0], list, versionKey) then Retained(keys[1..], list, versionKey)
    else
      assert keys == [keys[0]] + keys[1..];
      [keys[0]] + Retained(keys[1..], list, versionKey)
  }

  /** Dropping a set that holds exactly the obsolete keys of the list keeps
      what a clean-up keeps. */
  lemma {:induction false} FilterObsolete(keys: seq<string>, drop: set<string>, list: seq<KeyValue?>, versionKey: string)
    requires forall k :: k in keys ==> (k in drop <==> Obsolete(k, list, versionKey))
    ensures Filter(keys, drop) == Retained(keys, list, versionKey)
  {
    if keys != [] {
      FilterObsolete(keys[1..], drop, list, versionKey);
    }
  }

  /** `removed` holds exactly the obsolete keys among `seen`. */
  ghost predicate RemovedExactly(removed: set<string>, seen: seq<string>, list: seq<KeyValue?>, versionKey: string)
  {
    forall k :: k in removed <==> k in seen && Obsolete(k, list, versionKey)
  }

  /** One step of the clean-up walk over the stored entries: the obsolete
      key at index i, if it is one, joins the removed set, and removing it
      from the store already filtered by the set gives the store filtered by
      the grown set. */
  lemma RemovalStep(entries: seq<string>, removed: set<string>, i: nat, list: seq<KeyValue?>, versionKey: string)
    requires i < |entries| && RemovedExactly(removed, entries[..i], list, versionKey)
    ensures var key := entries[i];
      var grown := if Obsolete(key, list, versionKey) then removed + {key} else removed;
      && RemovedExactly(grown, entries[..i + 1], list, versionKey)
      && Filter(entries, grown) == if Obsolete(key, list, versionKey) then Filter(Filter(entries, removed), {key}) else Filter(entries, removed)
  {
    assert entries[..i + 1] == entries[..i] + [entries[i]];
    FilterFilter(entries, removed, {entries[i]});
  }

  /** Version key of the store. */
  const KEY_VERSION: string := "version"

  class SettingsService {
    /** Settings version of this firmware. */
    const VERSION: nat
    /** The version setting; it is not part of the registered list. */
    const version: KeyValue
    const wifiSSID: KeyValue
    const wifiPassphrase: KeyValue
    const apSSID: KeyValue
    const apPassphrase: KeyValue
    const webLoginUser: KeyValue
    const webLoginPassword: KeyValue
    const hostname: KeyValue

    var keyValueList: seq<KeyValue?>
    /** Keys present in the persistent store, in iteration order. */
    var storedKeys: seq<string>
    /** Value of the version setting; 0 when none is stored. */
    var storedVersion: nat

    /** The seven user settings are registered in declaration order; the
        version setting is left out so that users cannot change it. */
    constructor (VERSION: nat, storedKeys: seq<string>, storedVersion: nat)
      ensures this.VERSION == VERSION && this.storedKeys == storedKeys && this.storedVersion == storedVersion
      ensures keyValueList == [wifiSSID, wifiPassphrase, apSSID, apPassphrase, webLoginUser, webLoginPassword, hostname]
      ensures version.key == KEY_VERSION && version !in keyValueList
      ensures wifiSSID.key == "sta_ssid" && wifiPassphrase.key == "sta_passphrase"
      ensures apSSID.key == "ap_ssid" && apPassphrase.key == "ap_passphrase"
      ensures webLoginUser.key == "web_login_user" && webLoginPassword.key == "web_login_pass"
      ensures hostname.key == "hostname"
    {
      this.VERSION := VERSION;
      this.storedKeys := storedKeys;
      this.storedVersion := storedVersion;
      version := new KeyValue(KEY_VERSION);
      wifiSSID := new KeyValue("sta_ssid");
      wifiPassphrase := new KeyValue("sta_passphrase");
      apSSID := new KeyValue("ap_ssid");
      apPassphrase := new KeyValue("ap_passphrase");
      webLoginUser := new KeyValue("web_login_user");
      webLoginPassword := new KeyValue("web_login_pass");
      hostname := new KeyValue("hostname");
      keyValueList := [wifiSSID, wifiPassphrase, apSSID, apPassphrase, webLoginUser, webLoginPassword, hostname];
    }

    /** Walks the list and stops at the first non-null setting with the key. */
    method GetSettingByKey(key: string) returns (kv: KeyValue?)
      ensures kv == FindByKey(keyValueList, key)
    {
      kv := null;
      var i := 0;
      while i < |keyValueList|
        invariant 0 <= i <= |keyValueList|
        invariant FindByKey(keyValueList[i..], key) == FindByKey(keyValueList, key)
      {
        assert keyValueList[i..][1..] == keyValueList[i + 1..];
        if keyValueList[i] != null && keyValueList[i].key == key {
          kv := keyValueList[i];
          return;
        }
        i := i + 1;
      }
    }

    /** Registers a setting once: null or an already registered setting is
        refused, anything else is appended. */
    method RegisterSetting(setting: KeyValue?) returns (isSuccessful: bool)
      modifies this`keyValueList
      ensures isSuccessful <==> setting != null && setting !in old(keyValueList)
      ensures keyValueList == if isSuccessful then old(keyValueList) + [setting] else old(keyValueList)
    {
      isSuccessful := false;
      if setting != null {
        if setting !in keyValueList {
          keyValueList := keyValueList + [setting];
          isSuccessful := true;
        }
      }
    }

    /** Removes the first occurrence of the setting, if any. */
    method UnregisterSetting(setting: KeyValue?)
      modifies this`keyValueList
      ensures keyValueList == RemoveFirst(old(keyValueList), setting)
    {
      var i := 0;
      while i < |keyValueList|
        invariant 0 <= i <= |keyValueList| && keyValueList == old(keyValueList)
        invariant setting !in keyValueList[..i]
      {
        if setting == keyValueList[i] {
          assert IndexOf(keyValueList, setting) == i;
          keyValueList := keyValueList[..i] + keyValueList[i + 1..];
          return;
        }
        assert keyValueList[..i + 1] == keyValueList[..i] + [keyValueList[i]];
        i := i + 1;
      }
      assert keyValueList[..i] == keyValueList;
    }

    /** Walks the stored keys and removes each one that is neither the
        version key nor owned by a registered setting. */
    method RemoveObsoleteKeys()
      modifies this`storedKeys
      ensures storedKeys == Retained(old(storedKeys), keyValueList, version.key)
    {
      var entries := storedKeys;
      ghost var removed: set<string> := {};
      var i := 0;
      while i < |entries|
        invariant 0 <= i <= |entries|
        invariant storedKeys == Filter(entries, removed)
        invariant RemovedExactly(removed, entries[..i], keyValueList, version.key)
      {
        var key := entries[i];
        var obsolete := false;
        if key != version.key {
          var found := GetSettingByKey(key);
          obsolete := found == null;
        }
        RemovalStep(entries, removed, i, keyValueList, version.key);
        if obsolete {
          storedKeys := Filter(storedKeys, {key});
          removed := removed + {key};
        }
        i := i + 1;
      }
      assert entries[..i] == entries;
      FilterObsolete(entries, removed, keyValueList, version.key);
    }

    /** When the stored settings version differs from the firmware's, the
        obsolete keys are removed (unless listing the store fails) and the
        version is written, which stores its key if it was missing. With
        equal versions nothing changes. */
    method CleanUp(findFailed: bool)
      modifies this`storedKeys, this`storedVersion
      ensures old(storedVersion) == VERSION ==> storedKeys == old(storedKeys) && storedVersion == old(storedVersion)
      ensures old(storedVersion) != VERSION ==> storedVersion == VERSION
      ensures old(storedVersion) != VERSION ==>
        var kept := if findFailed then old(storedKeys) else Retained(old(storedKeys), keyValueList, version.key);
        storedKeys == if version.key in kept then kept else kept + [version.key]
    {
      if VERSION != storedVersion {
        if !findFailed {
          RemoveObsoleteKeys();
        }
        if version.key !in storedKeys {
          storedKeys := storedKeys + [version.key];
        }
        storedVersion := VERSION;
      }
    }
  }

  /** After construction no registered setting owns the version key, so a
      clean-up always keeps it, while every user key is owned by its
      setting and kept as well. */
  lemma ConstructedListOwnsUserKeys(service: SettingsService)
    requires service.keyValueList ==
      [service.wifiSSID, service.wifiPassphrase, service.apSSID, service.apPassphrase,
       service.webLoginUser, service.webLoginPassword, service.hostname]
    requires service.version.key == KEY_VERSION
    requires service.wifiSSID.key == "sta_ssid" && service.wifiPassphrase.key == "sta_passphrase"
    requires service.apSSID.key == "ap_ssid" && service.apPassphrase.key == "ap_passphrase"
    requires service.webLoginUser.key == "web_login_user" && service.webLoginPassword.key == "web_login_pass"
    requires service.hostname.key == "hostname"
    ensures FindByKey(service.keyValueList, KEY_VERSION) == null
    ensures forall i :: 0 <= i < |service.keyValueList| ==>
      FindByKey(service.keyValueList, service.keyValueList[i].key) == service.keyValueList[i]
  {
    var list := service.keyValueList;
    forall i | 0 <= i < |list|
      ensures list[i].key != KEY_VERSION
    {
      assert list[i].key[0] != 'v';
    }
    forall i | 0 <= i < |list|
      ensures FindByKey(list, list[i].key) == list[i]
    {
      var kv := FindByKey(list, list[i].key);
      assert kv != null;
      var j :| 0 <= j < |list| && list[j] == kv && forall j' :: 0 <= j' < j && list[j'] != null ==> list[j'].key != list[i].key;
      assert j <= i;
      assert list[j].key == list[i].key;
      assert j == i;
    }
  }
}
