/** The bookkeeping of mania_monitor_app/__init__.py's main window: the list
    of play keys shown in the map list, the selected key, and the table of
    best tapping rates with its ranked list. */
module MonitorApp {
  import opened Seqs
  import opened Sorting
  import opened Records
  import opened Keys
  import opened NpsTable

  /** The exceptions the three operations can raise. */
  datatype MonitorError =
    | UnboundKey      // `new_map_hash` read after a loop that never ran
    | ZeroRate        // `1000/nps` with a zero rate
    | NoSelection     // `int(None, 16)`
    | BadKey          // `int(key, 16)` on a string that is not hexadecimal
    | KeyNotRanked    // `hashes.index(play_hash)` without such an entry
    | EmptyData       // `np.vectorize` without `otypes` on no keys at all

  predicate IsKeyString(key: string)
  {
    |key| > 0 && IsHex(key)
  }

  ghost predicate DistinctKeys(keys: seq<string>)
  {
    forall i, j :: 0 <= i < j < |keys| ==> keys[i] != keys[j]
  }

  /** The text a new key gets in the map list: the key itself when the map
      database has no map for its map part, otherwise the last path component
      of the map followed by the mod suffix of its last four digits. */
  function MapLabel(lookup: string -> Option<string>, key: string): string
    requires IsKeyString(key)
  {
    match lookup(AllButLastFour(key))
    case None => key
    case Some(path) => LastComponent(path) + ModsLabel(HexValue(LastFour(key)))
  }

  /** The label of the key of value k, in terms of k: the map database is
      asked for the key of k div 65536 (or the empty string for a value
      below 65536), and the suffix names the mod bits of k mod 65536. */
  lemma MapLabelOfKey(lookup: string -> Option<string>, k: nat)
    ensures MapLabel(lookup, Hex(k)) ==
      match lookup(if k >= 65536 then Hex(k / 65536) else [])
      case None => Hex(k)
      case Some(path) => LastComponent(path) + ModsLabel(k % 65536)
  {
    KeyDecode(k);
  }

  function Labels(lookup: string -> Option<string>, keys: seq<string>): (r: seq<string>)
    requires forall i :: 0 <= i < |keys| ==> IsKeyString(keys[i])
    ensures |r| == |keys|
    ensures forall i :: 0 <= i < |keys| ==> r[i] == MapLabel(lookup, keys[i])
  {
    if keys == [] then [] else Labels(lookup, keys[..|keys| - 1]) + [MapLabel(lookup, keys[|keys| - 1])]
  }

  lemma NoDataNoKeys(listed: seq<string>)
    ensures NewKeys([], listed) == []
  {
    var keys := NewKeys([], listed);
    assert KeysOf([]) == [];
  }

  /** Every new key is the key of some play of the data, so a hex string;
      the new keys are distinct and none of them was listed. */
  lemma NewKeysFacts(data: seq<PlayRow>, listed: seq<string>)
    ensures var keys := NewKeys(data, listed);
      forall i :: 0 <= i < |keys| ==> IsKeyString(keys[i]) && keys[i] !in listed
    ensures var keys := NewKeys(data, listed);
      forall i :: 0 <= i < |keys| ==> exists r :: r in data && keys[i] == Hex(KeyValue(r))
    ensures DistinctKeys(NewKeys(data, listed))
  {
    var keys := NewKeys(data, listed);
    forall i | 0 <= i < |keys| ensures exists r :: r in data && keys[i] == Hex(KeyValue(r)) {
      assert keys[i] in KeysOf(data);
      var j :| 0 <= j < |data| && KeysOf(data)[j] == keys[i];
      assert data[j] in data;
    }
    StrLessIsStrictTotal();
    forall i, j | 0 <= i < j < |keys| ensures keys[i] != keys[j] {
      StrictlySortedDistinct(keys, StrLess, i, j);
    }
  }

  /** Appending the new keys keeps the list free of repeats. */
  lemma AppendKeepsDistinct(listed: seq<string>, keys: seq<string>)
    requires DistinctKeys(listed) && DistinctKeys(keys)
    requires forall k :: k in keys ==> k !in listed
    ensures DistinctKeys(listed + keys)
  {
    var s := listed + keys;
    forall i, j | 0 <= i < j < |s| ensures s[i] != s[j] {
      if i < |listed| <= j {
        assert s[j] in keys;
      }
    }
  }

  /** The loop of `__check_new_maps`: each key is appended to the listed
      keys and its label to the map list, in order. */
  method AppendKeys(listed: seq<string>, items: seq<string>, keys: seq<string>, lookup: string -> Option<string>)
    returns (listed': seq<string>, items': seq<string>)
    requires forall i :: 0 <= i < |keys| ==> IsKeyString(keys[i])
    ensures listed' == listed + keys
    ensures items' == items + Labels(lookup, keys)
  {
    listed', items' := listed, items;
    for i := 0 to |keys|
      invariant listed' == listed + keys[..i]
      invariant items' == items + Labels(lookup, keys[..i])
    {
      assert keys[..i + 1][..i] == keys[..i];
      listed' := listed' + [keys[i]];
      items' := items' + [MapLabel(lookup, keys[i])];
    }
    assert keys[..|keys|] == keys;
  }

  /** The new keys of the data and the lists with them appended. */
  method ListNewKeys(data: seq<PlayRow>, listed: seq<string>, items: seq<string>, lookup: string -> Option<string>)
    returns (keys: seq<string>, listed': seq<string>, items': seq<string>)
    requires DistinctKeys(listed) && |items| == |listed|
    ensures keys == NewKeys(data, listed)
    ensures forall i :: 0 <= i < |keys| ==> IsKeyString(keys[i])
    ensures listed' == listed + keys && items' == items + Labels(lookup, keys)
    ensures DistinctKeys(listed') && |items'| == |listed'|
  {
    keys := NewKeys(data, listed);
    NewKeysFacts(data, listed);
    AppendKeepsDistinct(listed, keys);
    listed', items' := AppendKeys(listed, items, keys, lookup);
  }

  /** The play key of the selected map as an integer. */
  function SelectedKey(selected: Option<string>): (r: Result<nat, MonitorError>)
    ensures r.Success? <==> selected.Some? && ParseHex(selected.value).Some?
    ensures r.Success? ==> r.value == ParseHex(selected.value).value
  {
    match selected
    case None => Failure(NoSelection)
    case Some(key) =>
      match ParseHex(key)
      case None => Failure(BadKey)
      case Some(h) => Success(h)
  }

  /** `round(entry['nps'], 2)` of every entry. */
  function Rounded(table: seq<NpsEntry>, round2: real -> real): (r: seq<real>)
    ensures |r| == |table|
    ensures forall i :: 0 <= i < |table| ==> r[i] == round2(table[i].nps)
  {
    MapSeq((e: NpsEntry) => round2(e.nps), table)
  }

  /** Selecting a key from the map list and parsing it gives back the value
      it was made from. */
  lemma SelectedKeyOfKey(k: nat)
    ensures SelectedKey(Some(Hex(k))) == Success(k)
  {
    HexRoundTrip(k);
  }

  class ManiaMonitor {
    /** `map_list_data`: the listed keys. */
    var mapListData: seq<string>
    /** The items of `map_list`, one per listed key. */
    var mapListItems: seq<string>
    /** `selected_map_hash`. */
    var selectedMapHash: Option<string>
    /** The `nps` table, in insertion order. */
    var npsTable: seq<NpsEntry>
    /** The items of `score_list`. */
    var scoreList: seq<real>
    /** The highlighted row of `score_list`. */
    var scoreRow: Option<nat>

    ghost predicate Valid()
      reads this
    {
      |mapListItems| == |mapListData| && DistinctKeys(mapListData) && DistinctHashes(npsTable)
    }

    constructor ()
      ensures Valid()
      ensures mapListData == [] && mapListItems == [] && selectedMapHash == None
      ensures npsTable == [] && scoreList == [] && scoreRow == None
    {
      mapListData := [];
      mapListItems := [];
      selectedMapHash := None;
      npsTable := [];
      scoreList := [];
      scoreRow := None;
    }

    /** `__check_new_maps`: appends each new key of the data, in string
        order, to the listed keys and its label to the map list. It answers
        whether any key was added; when no key was selected the last new key
        becomes the selection, and with no new keys that raises. Data with
        no rows raises before anything changes, as the hexadecimal
        conversion of an empty key array does. */
    method CheckNewMaps(data: seq<PlayRow>, lookup: string -> Option<string>) returns (r: Result<bool, MonitorError>)
      requires Valid()
      modifies this
      ensures Valid()
      ensures var keys := NewKeys(data, old(mapListData));
        mapListData == old(mapListData) + keys &&
        (forall i :: 0 <= i < |keys| ==> IsKeyString(keys[i])) &&
        mapListItems == old(mapListItems) + Labels(lookup, keys)
      ensures var keys := NewKeys(data, old(mapListData));
        r.Failure? <==> data == [] || (|keys| == 0 && old(selectedMapHash).None?)
      ensures data == [] ==> r == Failure(EmptyData)
      ensures data != [] && r.Failure? ==> r.error == UnboundKey
      ensures r.Success? ==> (r.value <==> |NewKeys(data, old(mapListData))| > 0)
      ensures var keys := NewKeys(data, old(mapListData));
        selectedMapHash == if old(selectedMapHash).None? && |keys| > 0 then Some(keys[|keys| - 1]) else old(selectedMapHash)
      ensures npsTable == old(npsTable) && scoreList == old(scoreList) && scoreRow == old(scoreRow)
    {
      if data == [] {
        NoDataNoKeys(mapListData);
        assert Labels(lookup, []) == [];
        r := Failure(EmptyData);
      } else {
        var keys, listed, items := ListNewKeys(data, mapListData, mapListItems, lookup);
        if selectedMapHash.None? && |keys| == 0 {
          r := Failure(UnboundKey);
        } else {
          r := Success(|keys| > 0);
        }
        var selected := if selectedMapHash.None? && |keys| > 0 then Some(keys[|keys| - 1]) else selectedMapHash;
        mapListData, mapListItems, selectedMapHash := listed, items, selected;
      }
    }

    /** `__update_top_nps`: lists the rounded rates in descending order and
        highlights the row of the selected key's entry. The list is rebuilt
        before the selected key is read, so it is rebuilt even when that
        raises. */
    method UpdateTopNps(round2: real -> real) returns (r: Result<nat, MonitorError>)
      modifies this
      ensures scoreList == Ranked(Rounded(npsTable, round2))
      ensures mapListData == old(mapListData) && mapListItems == old(mapListItems)
      ensures selectedMapHash == old(selectedMapHash) && npsTable == old(npsTable)
      ensures SelectedKey(selectedMapHash).Failure? ==>
        r == Failure(SelectedKey(selectedMapHash).error) && scoreRow == old(scoreRow)
      ensures SelectedKey(selectedMapHash).Success? && Find(npsTable, SelectedKey(selectedMapHash).value).None? ==>
        r == Failure(KeyNotRanked) && scoreRow == old(scoreRow)
      ensures SelectedKey(selectedMapHash).Success? && Find(npsTable, SelectedKey(selectedMapHash).value).Some? ==>
        var i := Find(npsTable, SelectedKey(selectedMapHash).value).value;
        r == Success(RankOf(Rounded(npsTable, round2), i)) && scoreRow == Some(r.value)
    {
      var vals := Rounded(npsTable, round2);
      scoreList := Ranked(vals);
      var key := SelectedKey(selectedMapHash);
      if key.Failure? {
        return Failure(key.error);
      }
      var found := Find(npsTable, key.value);
      if found.None? {
        return Failure(KeyNotRanked);
      }
      var row := RankOf(vals, found.value);
      scoreRow := Some(row);
      r := Success(row);
    }

    /** `__record_nps`: records the rate for the selected key and answers
        the tapping interval `1000/nps`. An absent key is inserted and the
        ranking left alone; a present key keeps the better rate and the
        ranking is rebuilt. */
    method RecordNps(nps: real, round2: real -> real) returns (r: Result<real, MonitorError>)
      requires Valid()
      modifies this
      ensures Valid()
      ensures nps == 0.0 ==> r == Failure(ZeroRate)
      ensures nps != 0.0 && SelectedKey(old(selectedMapHash)).Failure? ==>
        r == Failure(SelectedKey(old(selectedMapHash)).error)
      ensures r.Success? <==> nps != 0.0 && SelectedKey(old(selectedMapHash)).Success?
      ensures r.Failure? ==> unchanged(this)
      ensures r.Success? ==> r.value == 1000.0 / nps
      ensures mapListData == old(mapListData) && mapListItems == old(mapListItems)
      ensures selectedMapHash == old(selectedMapHash)
      ensures r.Success? ==>
        var h := SelectedKey(old(selectedMapHash)).value;
        npsTable == Record(old(npsTable), h, nps)
      ensures r.Success? && Find(old(npsTable), SelectedKey(old(selectedMapHash)).value).None? ==>
        scoreList == old(scoreList) && scoreRow == old(scoreRow)
      ensures r.Success? && Find(old(npsTable), SelectedKey(old(selectedMapHash)).value).Some? ==>
        var h := SelectedKey(old(selectedMapHash)).value;
        scoreList == Ranked(Rounded(npsTable, round2)) &&
        Find(npsTable, h).Some? &&
        scoreRow == Some(RankOf(Rounded(npsTable, round2), Find(npsTable, h).value))
    {
      if nps == 0.0 {
        return Failure(ZeroRate);
      }
      var interval := 1000.0 / nps;
      var key := SelectedKey(selectedMapHash);
      if key.Failure? {
        return Failure(key.error);
      }
      var h := key.value;
      var found := Find(npsTable, h);
      RecordKeepsBest(npsTable, h, nps);
      npsTable := Record(npsTable, h, nps);
      if found.None? {
        return Success(interval);
      }
      var _ := UpdateTopNps(round2);
      r := Success(interval);
    }
  }
}
