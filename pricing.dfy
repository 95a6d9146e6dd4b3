/** The pricing document loaded from `pricing.json` and its flattening into
    display rows (`flattenPricingData`). */
module Pricing {

  datatype Option<T> = None | Some(value: T)

  /** One priced model of a provider. `notes` is absent (`None`), or the
      string the document holds, which may be empty. Prices are the
      document's JSON numbers. */
  datatype Model = Model(
    name: string,
    inputPrice: real,
    outputPrice: real,
    unit: string,
    notes: Option<string>)

  datatype Provider = Provider(name: string, models: seq<Model>)

  /** One `[providerId, provider]` pair of `Object.entries(data.providers)`. */
  datatype ProviderEntry = ProviderEntry(id: string, provider: Provider)

  /** The document: its providers in the order `Object.entries` yields them. */
  datatype PricingDocument = PricingDocument(lastUpdated: string, providers: seq<ProviderEntry>)

  /** One flattened (provider, model) pair; `notes == None` stands for `null`. */
  datatype Row = Row(
    providerId: string,
    providerName: string,
    modelName: string,
    inputPrice: real,
    outputPrice: real,
    unit: string,
    notes: Option<string>)

  /** JavaScript truthiness of an optional string: absent and "" are falsy. */
  predicate Truthy(notes: Option<string>)
  {
    notes.Some? && notes.value != ""
  }

  /** The object literal pushed for `model` of the provider `entry`. A row
      never carries an empty note: a falsy note becomes `null`. */
  function ToRow(entry: ProviderEntry, model: Model): (r: Row)
    ensures r.notes.Some? ==> r.notes.value != ""
  {
    Row(entry.id, entry.provider.name, model.name, model.inputPrice, model.outputPrice,
        model.unit, if Truthy(model.notes) then model.notes else None)
  }

  /** The rows of one provider, one per model, in model order. */
  function ProviderRows(entry: ProviderEntry): seq<Row>
  {
    seq(|entry.provider.models|, j requires 0 <= j < |entry.provider.models| =>
      ToRow(entry, entry.provider.models[j]))
  }

  /** The flattening of a provider list: each provider's rows after those
      of the providers before it. */
  function Flatten(entries: seq<ProviderEntry>): seq<Row>
  {
    if entries == [] then []
    else Flatten(entries[..|entries| - 1]) + ProviderRows(entries[|entries| - 1])
  }

  /** The number of models over all providers of the list. */
  function ModelCount(entries: seq<ProviderEntry>): nat
  {
    if entries == [] then 0
    else ModelCount(entries[..|entries| - 1]) + |entries[|entries| - 1].provider.models|
  }

  /** The position in the flattened list of model `j` of provider `i`. */
  function RowIndex(entries: seq<ProviderEntry>, i: nat, j: nat): nat
    requires i <= |entries|
  {
    ModelCount(entries[..i]) + j
  }

  /** `flattenPricingData(data)`: nested loops over providers and their
      models, pushing one row per pair. */
  method FlattenPricingData(data: PricingDocument) returns (models: seq<Row>)
    ensures models == Flatten(data.providers)
    ensures |models| == ModelCount(data.providers)
  {
    models := [];
    var entries := data.providers;
    for i := 0 to |entries|
      invariant models == Flatten(entries[..i])
    {
      var entry := entries[i];
      var modelList := entry.provider.models;
      for j := 0 to |modelList|
        invariant models == Flatten(entries[..i]) + ProviderRows(entry)[..j]
      {
        assert ProviderRows(entry)[..j + 1] == ProviderRows(entry)[..j] + [ToRow(entry, modelList[j])];
        models := models + [ToRow(entry, modelList[j])];
      }
      assert entries[..i + 1][..i] == entries[..i];
      assert ProviderRows(entry)[..|modelList|] == ProviderRows(entry);
    }
    assert entries[..|entries|] == entries;
    FlattenLength(entries);
  }

  /** There are exactly as many rows as models over all providers. */
  lemma {:induction false} FlattenLength(entries: seq<ProviderEntry>)
    ensures |Flatten(entries)| == ModelCount(entries)
  {
    if entries != [] {
      FlattenLength(entries[..|entries| - 1]);
    }
  }

  /** A provider's models all come before the next provider's. */
  lemma {:induction false} ModelCountPrefix(entries: seq<ProviderEntry>, i: nat, k: nat)
    requires i < k <= |entries|
    ensures ModelCount(entries[..i]) + |entries[i].provider.models| <= ModelCount(entries[..k])
  {
    assert entries[..k][..k - 1] == entries[..k - 1];
    if i < k - 1 {
      ModelCountPrefix(entries, i, k - 1);
    } else {
      assert entries[..k][k - 1] == entries[i];
    }
  }

  /** Row order is provider order, then model order within a provider. */
  lemma RowIndexOrder(entries: seq<ProviderEntry>, i: nat, j: nat, i': nat, j': nat)
    requires i < |entries| && j < |entries[i].provider.models|
    requires i' < |entries| && j' < |entries[i'].provider.models|
    requires i < i' || (i == i' && j < j')
    ensures RowIndex(entries, i, j) < RowIndex(entries, i', j')
  {
    if i < i' {
      ModelCountPrefix(entries, i, i');
    }
  }

  /** Model `j` of provider `i` becomes the row at `RowIndex(entries, i, j)`,
      carrying the provider's key and name and the model's fields. */
  lemma {:induction false} FlattenAt(entries: seq<ProviderEntry>, i: nat, j: nat)
    requires i < |entries| && j < |entries[i].provider.models|
    ensures RowIndex(entries, i, j) < |Flatten(entries)|
    ensures Flatten(entries)[RowIndex(entries, i, j)] == ToRow(entries[i], entries[i].provider.models[j])
  {
    var n := |entries| - 1;
    var init := entries[..n];
    FlattenLength(init);
    FlattenLength(entries);
    if i == n {
      assert entries[..i] == init;
    } else {
      assert init[..i] == entries[..i];
      FlattenAt(init, i, j);
    }
  }

  /** Every row comes from one (provider, model) pair of the document. */
  lemma {:induction false} FlattenOrigin(entries: seq<ProviderEntry>, k: nat)
    requires k < |Flatten(entries)|
    ensures exists i, j ::
              && 0 <= i < |entries| && 0 <= j < |entries[i].provider.models|
              && k == RowIndex(entries, i, j)
              && Flatten(entries)[k] == ToRow(entries[i], entries[i].provider.models[j])
  {
    var n := |entries| - 1;
    var init := entries[..n];
    FlattenLength(init);
    if k < |Flatten(init)| {
      FlattenOrigin(init, k);
      var i, j :| 0 <= i < |init| && 0 <= j < |init[i].provider.models|
        && k == RowIndex(init, i, j)
        && Flatten(init)[k] == ToRow(init[i], init[i].provider.models[j]);
      assert init[..i] == entries[..i];
      assert RowIndex(entries, i, j) == k;
    } else {
      var j := k - |Flatten(init)|;
      assert entries[..n] == init;
      assert RowIndex(entries, n, j) == k;
    }
  }

  /** The row `flattenPricingData` makes for model `j` of provider `i`
      carries that provider's key and name, copies the model's name, prices
      and unit, and has `null` notes exactly when the model's notes are
      falsy (missing or empty), the model's own notes otherwise. */
  lemma FlattenFields(entries: seq<ProviderEntry>, i: nat, j: nat)
    requires i < |entries| && j < |entries[i].provider.models|
    ensures RowIndex(entries, i, j) < |Flatten(entries)|
    ensures var r := Flatten(entries)[RowIndex(entries, i, j)];
      var m := entries[i].provider.models[j];
      && r.providerId == entries[i].id
      && r.providerName == entries[i].provider.name
      && r.modelName == m.name
      && r.inputPrice == m.inputPrice
      && r.outputPrice == m.outputPrice
      && r.unit == m.unit
      && (r.notes.None? <==> (m.notes.None? || m.notes.value == ""))
      && (r.notes.Some? ==> r.notes == m.notes)
  {
    FlattenAt(entries, i, j);
  }

  /** No flattened row carries an empty note: a falsy note always becomes `null`. */
  lemma FlattenNotesNonEmpty(entries: seq<ProviderEntry>)
    ensures forall k :: 0 <= k < |Flatten(entries)| && Flatten(entries)[k].notes.Some? ==>
      Flatten(entries)[k].notes.value != ""
  {
    forall k | 0 <= k < |Flatten(entries)|
      ensures Flatten(entries)[k].notes.Some? ==> Flatten(entries)[k].notes.value != ""
    {
      FlattenOrigin(entries, k);
    }
  }

  /** The keys of a JSON object are distinct, so no two entries share an id. */
  predicate DistinctIds(entries: seq<ProviderEntry>)
  {
    forall i, j :: 0 <= i < j < |entries| ==> entries[i].id != entries[j].id
  }

  /** Every row carries the key of one of the document's providers. */
  lemma FlattenIds(entries: seq<ProviderEntry>, k: nat)
    requires k < |Flatten(entries)|
    ensures exists i :: 0 <= i < |entries| && Flatten(entries)[k].providerId == entries[i].id
  {
    FlattenOrigin(entries, k);
  }
}
