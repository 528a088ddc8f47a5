/** The two bookmaker providers and the supported sports (bookmakers/types.py, sources/bookmaker_catalog.py). */
module Providers {
  datatype Provider = Betano | Betclic

  const SUPPORTED_SPORTS: seq<string> := ["basketball", "football", "tennis"]
}
