/** The decoded shape of the photo server's metadata-search response (immich.go). */
module Immich {

  datatype SearchAsset = SearchAsset(id: string, fileCreatedAt: string, originalFileName: string)

  datatype SearchAssets = SearchAssets(items: seq<SearchAsset>, nextPage: string)

  datatype SearchResponse = SearchResponse(assets: SearchAssets)
}
