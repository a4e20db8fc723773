/** The global state container of src/store/index.ts: the data set, the
    configuration record and the result list, with the actions that
    overwrite one of them. Every action computes the new value with a pure
    spread, `map` or `filter` expression, which is the matching function of
    module `Quests`. */
module Store {
  import opened Quests

  /** The `config` record as the store literal builds it (note that this
      shape, not the `IConfig` type declaration, is what the store holds). */
  datatype StoreConfig = StoreConfig(
    mainTitle: string,
    subTitle: string,
    background: string,
    drawCount: nat,
    showConfetti: bool)

  class Store {
    var dataList: seq<Quest>
    var config: StoreConfig
    var selectedStrings: seq<Quest>

    /** The initial state of the store; `backgroundImg` is the URL of the
        bundled background image. */
    constructor (backgroundImg: string)
      ensures dataList == [] && selectedStrings == []
      ensures config.drawCount == 3 && !config.showConfetti && config.background == backgroundImg
      ensures config.mainTitle == "抽選系統" && config.subTitle == "預備階段"
    {
      dataList := [];
      config := StoreConfig("抽選系統", "預備階段", backgroundImg, 3, false);
      selectedStrings := [];
    }

    /** `addData`: one record at the end, the old list as its prefix. A
        record with a new identifier keeps identifiers unique. */
    method AddData(data: Quest)
      modifies this`dataList
      ensures dataList == old(dataList) + [data]
      ensures UniqueIds(old(dataList)) && !HasId(old(dataList), data.id) ==> UniqueIds(dataList)
    {
      assert UniqueIds(dataList) && !HasId(dataList, data.id) ==> UniqueIds(dataList + [data]) by {
        if UniqueIds(dataList) && !HasId(dataList, data.id) {
          AddFreshKeepsUniqueIds(dataList, [data.name], [data.id]);
          assert NewQuests([data.name], [data.id]) == [Quest(data.id, data.name, false)];
          assert forall i :: 0 <= i < |dataList| ==> (dataList + [data])[i].id == dataList[i].id;
        }
      }
      dataList := dataList + [data];
    }

    /** `updateData`: every record with `data`'s identifier becomes `data`. */
    method UpdateData(data: Quest)
      modifies this`dataList
      ensures dataList == UpdateById(old(dataList), data)
      ensures Ids(dataList) == Ids(old(dataList))
    {
      UpdateByIdKeepsIds(dataList, data);
      dataList := UpdateById(dataList, data);
    }

    /** `removeData`: drop every record with `data`'s identifier. */
    method RemoveData(data: Quest)
      modifies this`dataList
      ensures dataList == RemoveById(old(dataList), data.id)
    {
      dataList := RemoveById(dataList, data.id);
    }

    /** `updateDataList`: replace the data set. */
    method UpdateDataList(newList: seq<Quest>)
      modifies this`dataList
      ensures dataList == newList
    {
      dataList := newList;
    }

    /** `clearDataList`: the data set becomes empty; configuration and
        results are outside the frame. */
    method ClearDataList()
      modifies this`dataList
      ensures dataList == []
    {
      dataList := [];
    }

    /** `setConfig`: replace the configuration record. */
    method SetConfig(newConfig: StoreConfig)
      modifies this`config
      ensures config == newConfig
    {
      config := newConfig;
    }

    /** `setSelectedStrings`: despite the name, appends one item. */
    method SetSelectedStrings(item: Quest)
      modifies this`selectedStrings
      ensures selectedStrings == old(selectedStrings) + [item]
    {
      selectedStrings := selectedStrings + [item];
    }

    /** `clearSelectedStrings`: the results become empty; the data set and
        its flags are outside the frame. */
    method ClearSelectedStrings()
      modifies this`selectedStrings
      ensures selectedStrings == []
    {
      selectedStrings := [];
    }

    /** `setShowConfetti`: only the flag of the configuration changes. */
    method SetShowConfetti(showConfetti: bool)
      modifies this`config
      ensures config == old(config).(showConfetti := showConfetti)
    {
      config := config.(showConfetti := showConfetti);
    }
  }

  /** A client of the store: clearing twice leaves the state clearing once
      leaves. */
  method ClearDataListIdempotent(s: Store)
    modifies s`dataList
    ensures s.dataList == [] && s.config == old(s.config) && s.selectedStrings == old(s.selectedStrings)
  {
    s.ClearDataList();
    s.ClearDataList();
  }
}
