/** The records of the URL generator (types/url-generator.ts): a query
    parameter, a configuration, a history entry, the two storage keys and
    the two history limits. */
module UrlTypes {

  /** One name/value pair; `id` is an opaque token that tells rows apart. */
  datatype QueryParameter = QueryParameter(id: string, name: string, value: string)

  /** A base URL and its ordered parameters; the order is emission order. */
  datatype UrlConfiguration = UrlConfiguration(baseUrl: string, parameters: seq<QueryParameter>)

  /** A snapshot of a configuration, when it was taken (milliseconds since
      the epoch) and the URL it rendered to at the time. */
  datatype HistoryEntry = HistoryEntry(
    id: string,
    configuration: UrlConfiguration,
    timestamp: int,
    generatedUrl: string)

  const CURRENT_CONFIG_KEY: string := "url-generator-current"
  const HISTORY_KEY: string := "url-generator-history"

  /** Most entries the stored history keeps after an addition. */
  const MAX_HISTORY_ENTRIES: nat := 10

  /** Entries the history panel shows. */
  const DISPLAY_HISTORY_COUNT: nat := 3
}
