/** The crawler's in-memory records: what the extractor finds in a README, an
    awesome list being crawled, and a crawled item with its commit time. */
module Records {
  import opened Wrappers

  /** One entry found in a README: its name, link, description and category. */
  datatype ExtractInfo = ExtractInfo(name: string, source: string, description: string, category: Option<string>)

  /** An awesome list: its name, repository link and description. */
  datatype AwesomeList = AwesomeList(name: string, source: string, description: string)

  /** A crawled entry of a list and the time it was first seen (an instant, in seconds). */
  datatype AwesomeItem = AwesomeItem(item: ExtractInfo, list: AwesomeList, time: int)
}
