/** The sizes the plugin is built with (config.h). */
module Settings {
  const PAGE_SIZE := 4096
  const MIN_CHUNK := 2048
  const MAX_CHUNK := 65536

  // FINGERPRINT_CONTENT_MAX_PAGES
  const MAX_PAGES := MAX_CHUNK / PAGE_SIZE + 2

  // MAX_FINGERPRINTS_PER_REQ: the length of the arrays of a request
  const MAX_FINGERPRINTS := 4096

  // messages longer than this are fingerprinted (FINGERPRINT_MSG_SIZE_THRESHOLD)
  const THRESHOLD := 5 * MIN_CHUNK
}
