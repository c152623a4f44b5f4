/**
 * The already-parsed payloads of the three research providers and of the
 * reader, as the mission sees them.  Every network call of the system is an
 * input of this shape; a missing JSON key is `None`.
 */
module Providers {
  import opened Wrappers

  /** One organic result or Custom Search item: only `title` and `link` are read. */
  datatype SearchItem = SearchItem(title: Option<string>, link: Option<string>)

  /**
   * A SerpAPI reply: either an object with an `"error"` key, or the organic
   * results together with the optional `related_searches[*].query` and
   * `people_also_ask[*].question` lists (a missing `organic_results` key is
   * the empty list).
   */
  datatype SerpReply =
    | SerpFailed(message: string)
    | SerpResults(organic: seq<SearchItem>,
                  relatedSearches: Option<seq<Option<string>>>,
                  peopleAlsoAsk: Option<seq<Option<string>>>)

  /**
   * What the Custom Search client returns: `{"error": msg}`, the empty
   * object `{}`, or the last page's object with `items` replaced by every
   * item gathered (`meta` stands for the page's other fields).
   */
  datatype CustomReply =
    | CustomFailed(message: string)
    | CustomEmpty
    | CustomItems(items: seq<SearchItem>, meta: string)

  /** The `items` list the mission reads from a Custom Search reply (`get("items", [])`). */
  function CustomItemsOf(reply: CustomReply): seq<SearchItem> {
    if reply.CustomItems? then reply.items else []
  }

  /** The organic results the mission reads: none when SerpAPI answered with an error. */
  function OrganicOf(reply: SerpReply): seq<SearchItem> {
    if reply.SerpResults? then reply.organic else []
  }
}
