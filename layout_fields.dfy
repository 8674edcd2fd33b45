/** The part of `sfdc.util.getSObjectLayoutFields` that runs after its two
    Tooling API queries: the field names placed on a page layout, and the
    object's field records restricted to those names. */
module LayoutFields {
  import opened Wrappers
  import opened Seqs

  /** `layoutItem`: its `field` is the API name of the field it shows, absent
      for blank spaces and other non-field items. */
  datatype LayoutItem = LayoutItem(field: Option<string>)
  datatype LayoutColumn = LayoutColumn(layoutItems: seq<LayoutItem>)
  datatype LayoutSection = LayoutSection(layoutColumns: seq<LayoutColumn>)

  /** One record of the `CustomField` query: a JSON object whose properties
      are strings, keyed by property name. */
  type FieldRecord = map<string, string>

  /** `if (layoutItem.field)`: present and not the empty string. */
  predicate IsTruthy(field: Option<string>)
  {
    field.Some? && field.value != ""
  }

  /** The field names one column contributes, in order. */
  function ItemFields(items: seq<LayoutItem>): seq<string>
    decreases |items|
  {
    if |items| == 0 then []
    else
      var n := |items| - 1;
      ItemFields(items[..n]) + (if IsTruthy(items[n].field) then [items[n].field.value] else [])
  }

  /** The field names a list of columns contributes, column by column. */
  function ColumnFields(columns: seq<LayoutColumn>): seq<string>
    decreases |columns|
  {
    if |columns| == 0 then []
    else
      var n := |columns| - 1;
      ColumnFields(columns[..n]) + ItemFields(columns[n].layoutItems)
  }

  /** The field names of the whole layout, section by section. */
  function SectionFields(sections: seq<LayoutSection>): seq<string>
    decreases |sections|
  {
    if |sections| == 0 then []
    else
      var n := |sections| - 1;
      SectionFields(sections[..n]) + ColumnFields(sections[n].layoutColumns)
  }

  /** The three nested `forEach` loops that push each present `field`; each
      loop is a method of its own, as each is a callback in the source. */
  method FlattenLayoutFields(sections: seq<LayoutSection>) returns (layoutFields: seq<string>)
    ensures layoutFields == SectionFields(sections)
  {
    layoutFields := [];
    for i := 0 to |sections|
      invariant layoutFields == SectionFields(sections[..i])
    {
      assert sections[..i + 1][..i] == sections[..i];
      layoutFields := PushColumnFields(layoutFields, sections[i].layoutColumns);
    }
    assert sections[..|sections|] == sections;
  }

  /** `layoutSection.layoutColumns.forEach(...)`. */
  method PushColumnFields(layoutFields: seq<string>, columns: seq<LayoutColumn>) returns (pushed: seq<string>)
    ensures pushed == layoutFields + ColumnFields(columns)
  {
    pushed := layoutFields;
    for j := 0 to |columns|
      invariant pushed == layoutFields + ColumnFields(columns[..j])
    {
      assert columns[..j + 1][..j] == columns[..j];
      pushed := PushItemFields(pushed, columns[j].layoutItems);
    }
    assert columns[..|columns|] == columns;
  }

  /** `layoutColumn.layoutItems.forEach(...)`: push each present `field`. */
  method PushItemFields(layoutFields: seq<string>, items: seq<LayoutItem>) returns (pushed: seq<string>)
    ensures pushed == layoutFields + ItemFields(items)
  {
    pushed := layoutFields;
    for k := 0 to |items|
      invariant pushed == layoutFields + ItemFields(items[..k])
    {
      assert items[..k + 1][..k] == items[..k];
      if IsTruthy(items[k].field) {
        pushed := pushed + [items[k].field.value];
      }
    }
    assert items[..|items|] == items;
  }

  /** Some item of the column list carries the field `f`. */
  ghost predicate ItemsHave(items: seq<LayoutItem>, f: string)
  {
    exists k :: 0 <= k < |items| && items[k].field == Some(f)
  }

  /** Some item of some column carries the field `f`. */
  ghost predicate ColumnsHave(columns: seq<LayoutColumn>, f: string)
  {
    exists j :: 0 <= j < |columns| && ItemsHave(columns[j].layoutItems, f)
  }

  /** Some item of some column of some section carries the field `f`. */
  ghost predicate SectionsHave(sections: seq<LayoutSection>, f: string)
  {
    exists i :: 0 <= i < |sections| && ColumnsHave(sections[i].layoutColumns, f)
  }

  /** A name is in a column's list exactly when one of its items carries it. */
  lemma {:induction false} ItemFieldsMembers(items: seq<LayoutItem>, f: string)
    ensures f in ItemFields(items) <==> f != "" && ItemsHave(items, f)
    decreases |items|
  {
    if |items| > 0 {
      var n := |items| - 1;
      ItemFieldsMembers(items[..n], f);
      if ItemsHave(items, f) {
        var k :| 0 <= k < |items| && items[k].field == Some(f);
        if k < n {
          assert items[..n][k].field == Some(f);
        }
      }
      if ItemsHave(items[..n], f) {
        var k :| 0 <= k < n && items[..n][k].field == Some(f);
        assert items[k].field == Some(f);
      }
    }
  }

  /** A name is in a list of columns' names exactly when an item of one of
      the columns carries it. */
  lemma {:induction false} ColumnFieldsMembers(columns: seq<LayoutColumn>, f: string)
    ensures f in ColumnFields(columns) <==> f != "" && ColumnsHave(columns, f)
    decreases |columns|
  {
    if |columns| > 0 {
      var n := |columns| - 1;
      ColumnFieldsMembers(columns[..n], f);
      ItemFieldsMembers(columns[n].layoutItems, f);
      if ColumnsHave(columns, f) {
        var j :| 0 <= j < |columns| && ItemsHave(columns[j].layoutItems, f);
        if j < n {
          assert ItemsHave(columns[..n][j].layoutItems, f);
        }
      }
      if ColumnsHave(columns[..n], f) {
        var j :| 0 <= j < n && ItemsHave(columns[..n][j].layoutItems, f);
        assert ItemsHave(columns[j].layoutItems, f);
      }
    }
  }

  /** A name is in the layout's list exactly when some item of some column
      of some section carries it; items without a field contribute nothing. */
  lemma {:induction false} SectionFieldsMembers(sections: seq<LayoutSection>, f: string)
    ensures f in SectionFields(sections) <==> f != "" && SectionsHave(sections, f)
    decreases |sections|
  {
    if |sections| > 0 {
      var n := |sections| - 1;
      SectionFieldsMembers(sections[..n], f);
      ColumnFieldsMembers(sections[n].layoutColumns, f);
      if SectionsHave(sections, f) {
        var i :| 0 <= i < |sections| && ColumnsHave(sections[i].layoutColumns, f);
        if i < n {
          assert ColumnsHave(sections[..n][i].layoutColumns, f);
        }
      }
      if SectionsHave(sections[..n], f) {
        var i :| 0 <= i < n && ColumnsHave(sections[..n][i].layoutColumns, f);
        assert ColumnsHave(sections[i].layoutColumns, f);
      }
    }
  }

  /** `layoutFields.indexOf(record[key]) != -1`. A missing property reads as
      `undefined`, which is never among the pushed names. */
  predicate OnLayout(record: FieldRecord, layoutFields: seq<string>, key: string)
  {
    key in record && record[key] in layoutFields
  }

  /** `objectFields.filter(...)` on the property `key`. */
  function KeepOnLayout(objectFields: seq<FieldRecord>, layoutFields: seq<string>, key: string): seq<FieldRecord>
  {
    Filter(objectFields, (record: FieldRecord) => OnLayout(record, layoutFields, key))
  }

  /** The records kept are exactly the object's records whose property
      `key` names a field on the layout. */
  lemma KeepOnLayoutMembers(objectFields: seq<FieldRecord>, layoutFields: seq<string>, key: string, record: FieldRecord)
    ensures record in KeepOnLayout(objectFields, layoutFields, key) <==>
      record in objectFields && key in record && record[key] in layoutFields
  {
    var p := (record: FieldRecord) => OnLayout(record, layoutFields, key);
    if record in KeepOnLayout(objectFields, layoutFields, key) {
      FilterMembers(objectFields, p, record);
    }
    if record in objectFields && key in record && record[key] in layoutFields {
      FilterKeeps(objectFields, p, record);
    }
  }

  /** `getSObjectLayoutFields` as written: the filter reads the property
      `developerName`, which the `CustomField` query does not select. */
  function LayoutFieldRecordsAsWritten(objectFields: seq<FieldRecord>, sections: seq<LayoutSection>): seq<FieldRecord>
  {
    KeepOnLayout(objectFields, SectionFields(sections), "developerName")
  }

  /** `getSObjectLayoutFields` reading the selected property `DeveloperName`. */
  function LayoutFieldRecords(objectFields: seq<FieldRecord>, sections: seq<LayoutSection>): seq<FieldRecord>
  {
    KeepOnLayout(objectFields, SectionFields(sections), "DeveloperName")
  }

  /** With the corrected property, a record is kept exactly when its
      developer name is the field of some item of the layout. */
  lemma LayoutFieldRecordsMembers(objectFields: seq<FieldRecord>, sections: seq<LayoutSection>, record: FieldRecord)
    ensures record in LayoutFieldRecords(objectFields, sections) <==>
      record in objectFields && "DeveloperName" in record && record["DeveloperName"] != ""
      && SectionsHave(sections, record["DeveloperName"])
  {
    KeepOnLayoutMembers(objectFields, SectionFields(sections), "DeveloperName", record);
    if "DeveloperName" in record {
      SectionFieldsMembers(sections, record["DeveloperName"]);
    }
  }

  /** The query selects `DeveloperName`, not `developerName`, and property
      names are case-sensitive: records without a `developerName` property,
      whatever else they carry (such as the `attributes` of every query
      record), are all dropped, so as written the result is empty. */
  lemma AsWrittenKeepsNothing(objectFields: seq<FieldRecord>, sections: seq<LayoutSection>)
    requires forall i :: 0 <= i < |objectFields| ==> "developerName" !in objectFields[i]
    ensures LayoutFieldRecordsAsWritten(objectFields, sections) == []
  {
    var r := LayoutFieldRecordsAsWritten(objectFields, sections);
    if |r| > 0 {
      KeepOnLayoutMembers(objectFields, SectionFields(sections), "developerName", r[0]);
    }
  }

  /** One layout with one field and one matching record: the corrected
      filter keeps the record, the written one drops it. */
  lemma DeveloperNameExample()
    ensures var sections := [LayoutSection([LayoutColumn([LayoutItem(Some("Region")), LayoutItem(None)])])];
      var record := map["Id" := "00N000000000001", "DeveloperName" := "Region"];
      && LayoutFieldRecords([record], sections) == [record]
      && LayoutFieldRecordsAsWritten([record], sections) == []
  {
    var sections := [LayoutSection([LayoutColumn([LayoutItem(Some("Region")), LayoutItem(None)])])];
    var record := map["Id" := "00N000000000001", "DeveloperName" := "Region"];
    var items := sections[0].layoutColumns[0].layoutItems;
    assert items[..1][..0] == [];
    assert ItemFields(items[..1]) == ["Region"];
    assert ItemFields(items) == ["Region"];
    assert sections[0].layoutColumns[..0] == [];
    assert ColumnFields(sections[0].layoutColumns) == ["Region"];
    assert sections[..0] == [];
    assert SectionFields(sections) == ["Region"];
    assert [record][..0] == [];
    assert OnLayout(record, ["Region"], "DeveloperName");
    assert "developerName" !in record;
    AsWrittenKeepsNothing([record], sections);
  }
}
