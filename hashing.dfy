/** `calculateFileSha1` and `calculateRemoteSha1` (util/api/calculateSHA.kt). The digest
    itself (SHA-1, FIPS 180-4, as lower-case hex) is a function parameter `sha1`; these
    functions only decide what it is applied to, and when there is no digest at all. */
module Hashing {
  import opened Text
  import opened FileSystem
  import opened Versions

  /** The digest of a local file: none for a missing file, and none when the file cannot
      be opened as a stream of bytes (a directory). An archive or a `cfg.json` has no
      byte content in this model, so it has no digest either. */
  function FileSha1(d: Disk, p: Path, sha1: string -> string): (r: Option<string>)
    ensures r.Some? <==> IsPlainFile(d, p)
    ensures r.Some? ==> r.value == sha1(d.tree[p].content)
    ensures !Exists(d, p) ==> r.None?
  {
    if !Exists(d, p) then None
    else if IsPlainFile(d, p) then Some(sha1(d.tree[p].content))
    else None
  }

  /** The digest of whatever body the URL answers with. The status is not looked at, so
      an error page is hashed like the file; only an unreachable URL gives no digest. */
  function RemoteSha1(net: Net, url: string, sha1: string -> string): (r: Option<string>)
    ensures r.Some? <==> Get(net, url).Returned?
    ensures r.Some? ==> r.value == sha1(Get(net, url).value.bytes)
  {
    match Get(net, url)
    case Threw(_) => None
    case Returned(resp) => Some(sha1(resp.bytes))
  }

  /** A 404 page is hashed like a real download. */
  lemma ErrorPagesAreHashed(net: Net, url: string, sha1: string -> string)
    requires url in net && net[url].status == 404
    ensures RemoteSha1(net, url, sha1) == Some(sha1(net[url].bytes))
  {
  }
}
