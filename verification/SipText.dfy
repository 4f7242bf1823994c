/** Texts that several builders write. */
module SipText {
  const CRLF := "\r\n"
  const CONTENT_LENGTH := "Content-Length: "
}
