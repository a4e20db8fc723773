/** The settings drawer of src/components/Config.tsx: the text field, the
    add, import, remove and clear commands on the store's data set, and the
    edits of single configuration fields. */
module Settings {
  import opened Text
  import opened Quests
  import opened Store

  class ConfigPanel {
    var input: string
    const store: Store

    constructor (store: Store)
      ensures this.store == store && input == ""
    {
      this.store := store;
      input := "";
    }

    /** `handleTextAreaChange` */
    method SetInput(value: string)
      modifies this`input
      ensures input == value
    {
      input := value;
    }

    /** `handleAddData`: one `addData` call per comma piece, in piece order,
        each with a fresh identifier and `selected` false; the pieces are
        not trimmed. */
    method HandleAddData(questName: string, ids: seq<Id>)
      requires |ids| == |Split(questName, Comma)|
      modifies store`dataList
      ensures store.dataList == old(store.dataList) + NewQuests(Split(questName, Comma), ids)
      ensures |store.dataList| == |old(store.dataList)| + Occurrences(questName, Comma) + 1
      ensures UniqueIds(old(store.dataList)) && FreshIds(ids, old(store.dataList)) ==> UniqueIds(store.dataList)
    {
      var questNameArr := Split(questName, Comma);
      ghost var before := store.dataList;
      for i := 0 to |questNameArr|
        invariant store.dataList == before + NewQuests(questNameArr[..i], ids[..i])
      {
        NewQuestsSnoc(questNameArr, ids, i);
        ConcatAssoc(before, NewQuests(questNameArr[..i], ids[..i]), [Quest(ids[i], questNameArr[i], false)]);
        store.AddData(Quest(ids[i], questNameArr[i], false));
      }
      assert questNameArr[..|questNameArr|] == questNameArr;
      assert ids[..|ids|] == ids;
      if UniqueIds(before) && FreshIds(ids, before) {
        AddFreshKeepsUniqueIds(before, questNameArr, ids);
      }
    }

    /** `handleAddDataList`: the preset strings are added as they are, one
        entry each, without splitting, in one replacement of the data set. */
    method HandleAddDataList(presets: seq<string>, ids: seq<Id>)
      requires |ids| == |presets|
      modifies store`dataList
      ensures store.dataList == old(store.dataList) + NewQuests(presets, ids)
      ensures |store.dataList| == |old(store.dataList)| + |presets|
      ensures UniqueIds(old(store.dataList)) && FreshIds(ids, old(store.dataList)) ==> UniqueIds(store.dataList)
    {
      var newDataList := NewQuests(presets, ids);
      if UniqueIds(store.dataList) && FreshIds(ids, store.dataList) {
        AddFreshKeepsUniqueIds(store.dataList, presets, ids);
      }
      store.UpdateDataList(store.dataList + newDataList);
    }

    /** `handleAddString`: refuse input that is empty after trimming;
        otherwise add the pieces of the trimmed input and empty the field. */
    method HandleAddString(ids: seq<Id>) returns (notice: Notice)
      requires |ids| == (if Trim(input) == "" then 0 else |Split(Trim(input), Comma)|)
      modifies this`input, store`dataList
      ensures Trim(old(input)) == "" ==>
                notice == Failed && store.dataList == old(store.dataList) && input == old(input)
      ensures Trim(old(input)) != "" ==>
                && notice == Added(Trim(old(input)))
                && store.dataList == old(store.dataList) + NewQuests(Split(Trim(old(input)), Comma), ids)
                && input == ""
    {
      var trimmed := Trim(input);
      if trimmed != "" {
        HandleAddData(trimmed, ids);
        input := "";
        notice := Added(trimmed);
      } else {
        notice := Failed;
      }
    }

    /** The remove button of a row of the dataset dialog. */
    method RemoveEntry(id: Id)
      modifies store`dataList
      ensures store.dataList == RemoveById(old(store.dataList), id)
    {
      store.UpdateDataList(RemoveById(store.dataList, id));
    }

    /** The clear button of the dataset. */
    method ClearData()
      modifies store`dataList
      ensures store.dataList == []
    {
      store.ClearDataList();
    }

    /** The four configuration inputs: each replaces the record with a copy
        that differs in that one field. */
    method EditMainTitle(value: string)
      modifies store`config
      ensures store.config == old(store.config).(mainTitle := value)
    {
      store.SetConfig(store.config.(mainTitle := value));
    }

    method EditSubTitle(value: string)
      modifies store`config
      ensures store.config == old(store.config).(subTitle := value)
    {
      store.SetConfig(store.config.(subTitle := value));
    }

    method EditDrawCount(value: nat)
      modifies store`config
      ensures store.config == old(store.config).(drawCount := value)
    {
      store.SetConfig(store.config.(drawCount := value));
    }

    method EditBackground(value: string)
      modifies store`config
      ensures store.config == old(store.config).(background := value)
    {
      store.SetConfig(store.config.(background := value));
    }
  }
}
