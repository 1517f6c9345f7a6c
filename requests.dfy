/** The shapes of the low-level DynamoDB requests the builders assemble and
    of the responses they read.  An absent optional parameter is `None`. */
module Requests {
  import opened Common
  import opened Values
  import opened Errors

  type Item = map<string, Wire>

  /** A `query` or `scan` request. */
  datatype ReadRequest = ReadRequest(
    tableName: string,
    indexName: Option<string>,
    keyConditionExpression: Option<string>,
    filterExpression: Option<string>,
    names: Option<map<string, string>>,
    values: Option<map<string, Wire>>,
    scanIndexForward: Option<bool>,
    limit: Option<int>,
    exclusiveStartKey: Option<Item>)

  /** One page of a `query` or `scan` response. */
  datatype ReadResponse = ReadResponse(items: seq<Item>, lastEvaluatedKey: Option<Item>)

  /** The table client: one call, answered by a page or a client error. */
  type ReadClient = ReadRequest -> Result<ReadResponse, ClientFault>

  /** What a paginator delivers for one request: its pages in order, and
      the client error raised when the page after them is asked for, if
      fetching stopped on an error. */
  datatype PageStream = PageStream(pages: seq<ReadResponse>, fault: Option<ClientFault>)

  /** The paginator. */
  type Paginator = ReadRequest -> PageStream

  /** An `update_item` request. */
  datatype UpdateRequest = UpdateRequest(
    tableName: string,
    key: Item,
    updateExpression: string,
    conditionExpression: Option<string>,
    names: Option<map<string, string>>,
    values: Option<map<string, Wire>>,
    returnValues: string)

  /** An `update_item` response: the returned attributes, if any, and the
      whole raw response otherwise. */
  datatype UpdateResponse = UpdateResponse(attributes: Option<Item>, raw: map<string, Native>)

  type UpdateClient = UpdateRequest -> Result<UpdateResponse, ClientFault>

  /** Python truthiness of an optional map: present and non-empty. */
  predicate Present<K, V>(m: Option<map<K, V>>)
  {
    m.Some? && m.value != map[]
  }
}
