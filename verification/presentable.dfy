/** The presentable-model configuration a model offers to the collection
    table: which columns to show and under which headers. */
module Presentable {
  import opened Php
  import opened Results
  import opened OrderedMaps

  /** The `$columns` and `$headers` properties of a model; `None` when the
      model does not declare one, which PHP reads as null. */
  datatype Configuration = Configuration(columns: Option<OMap<Key, Value>>, headers: Option<OMap<Key, Value>>)

  /** `empty()` on an array property that may be null. */
  predicate EmptyArray(a: Option<OMap<Key, Value>>)
  {
    a.None? || |a.value| == 0
  }

  /** `requirePresentableModelColumnsConfiguration`. */
  function RequireColumns(c: Configuration): (r: Result<()>)
    ensures r.Success? <==> !EmptyArray(c.columns)
    ensures r.Failure? ==> r.error == ColumnsNotConfigured
  {
    if EmptyArray(c.columns) then Failure(ColumnsNotConfigured) else Success(())
  }

  /** `requirePresentableModelHeadersConfiguration`. */
  function RequireHeaders(c: Configuration): (r: Result<()>)
    ensures r.Success? <==> !EmptyArray(c.headers)
    ensures r.Failure? ==> r.error == HeadersNotConfigured
  {
    if EmptyArray(c.headers) then Failure(HeadersNotConfigured) else Success(())
  }

  /** `requireMinimalPresentableModelConfiguration`: columns first, then
      headers. */
  function RequireMinimal(c: Configuration): (r: Result<()>)
    ensures r.Success? <==> !EmptyArray(c.columns) && !EmptyArray(c.headers)
    ensures EmptyArray(c.columns) ==> r == Failure(ColumnsNotConfigured)
    ensures !EmptyArray(c.columns) && EmptyArray(c.headers) ==> r == Failure(HeadersNotConfigured)
  {
    var _ :- RequireColumns(c);
    RequireHeaders(c)
  }

  /** `getColumns`: the columns exactly when they are non-empty. */
  function GetColumns(c: Configuration): (r: Result<OMap<Key, Value>>)
    ensures r.Success? <==> !EmptyArray(c.columns)
    ensures r.Success? ==> c.columns == Some(r.value) && |r.value| > 0
    ensures r.Failure? ==> r.error == ColumnNamesNotSpecified
  {
    if EmptyArray(c.columns) then Failure(ColumnNamesNotSpecified) else Success(c.columns.value)
  }

  /** `getHeaders`: the headers exactly when they are non-empty. */
  function GetHeaders(c: Configuration): (r: Result<OMap<Key, Value>>)
    ensures r.Success? <==> !EmptyArray(c.headers)
    ensures r.Success? ==> c.headers == Some(r.value) && |r.value| > 0
    ensures r.Failure? ==> r.error == HeaderNamesNotSpecified
  {
    if EmptyArray(c.headers) then Failure(HeaderNamesNotSpecified) else Success(c.headers.value)
  }

  /** The minimal-configuration check passes exactly when both getters
      succeed. */
  lemma RequireMinimalMatchesGetters(c: Configuration)
    ensures RequireMinimal(c).Success? <==> GetColumns(c).Success? && GetHeaders(c).Success?
  {
  }

  /** `showHead`: every presentable model shows its head. */
  function ShowHead(c: Configuration): (r: bool)
    ensures r
  {
    true
  }

  /** `showFoot`: every presentable model shows its foot. */
  function ShowFoot(c: Configuration): (r: bool)
    ensures r
  {
    true
  }

  /** `tableQueryModifier(&$query)`: leaves the query as it was. */
  function TableQueryModifier<Q>(query: Q): (r: Q)
    ensures r == query
  {
    query
  }
}
