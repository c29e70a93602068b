/**
 * Request and file-name helpers of the link shortener: the client address
 * taken from a proxied request, and the file name a QR image is served or
 * mailed under.
 */
module UrlUtils {
  import opened Options
  import opened Text

  /**
   * `get_client_ip`: with a non-empty X-Forwarded-For header, the text before
   * its first comma (left as it is, surrounding blanks included); otherwise
   * REMOTE_ADDR, which may itself be missing.
   */
  function ClientIp(forwardedFor: Option<string>, remoteAddr: Option<string>): (ip: Option<string>)
    ensures forwardedFor.Some? && forwardedFor.value != "" ==>
      && ip.Some?
      && ip.value <= forwardedFor.value
      && ',' !in ip.value
      && (ip.value == forwardedFor.value || forwardedFor.value[|ip.value|] == ',')
    ensures forwardedFor.None? || forwardedFor.value == "" ==> ip == remoteAddr
  {
    if forwardedFor.Some? && forwardedFor.value != "" then
      Some(SplitOn(forwardedFor.value, ',')[0])
    else
      remoteAddr
  }

  /** The first hop is exactly the first piece of the comma-separated chain, and the chain is that hop followed by the rest. */
  lemma ClientIpIsFirstHop(forwardedFor: string, remoteAddr: Option<string>)
    requires forwardedFor != ""
    ensures var hops := SplitOn(forwardedFor, ',');
      && ClientIp(Some(forwardedFor), remoteAddr) == Some(hops[0])
      && forwardedFor == Join(hops, ",")
  {
    JoinSplitOn(forwardedFor, ',');
  }

  // ---------------------------------------------------------------- QR file names

  /** The extensions a QR file name may already carry, compared after lower-casing. */
  predicate HasImageExtension(name: string) {
    var l := Lower(name);
    EndsWith(l, ".png") || EndsWith(l, ".jpg") || EndsWith(l, ".jpeg")
  }

  /** Index just past the last '/' in `path`, or 0 when there is none. */
  function AfterLastSlash(path: string): (i: nat)
    ensures i <= |path|
    ensures i > 0 ==> path[i - 1] == '/'
    ensures forall k :: i <= k < |path| ==> path[k] != '/'
  {
    if path == [] then 0
    else if path[|path| - 1] == '/' then |path|
    else AfterLastSlash(path[..|path| - 1])
  }

  /** POSIX `os.path.basename`: the part of the storage name after its last '/'. */
  function Basename(path: string): (r: string)
    ensures '/' !in r
    ensures EndsWith(path, r)
    ensures r == path || path[|path| - |r| - 1] == '/'
  {
    path[AfterLastSlash(path)..]
  }

  /** The download rule: ".png" is appended unless the name already ends, in any case, in ".png", ".jpg" or ".jpeg". */
  function QrFilename(name: string): (r: string)
    ensures HasImageExtension(r)
    ensures HasImageExtension(name) ==> r == name
    ensures r == name || r == name + ".png"
  {
    if HasImageExtension(name) then name
    else
      var r := name + ".png";
      assert Lower(r)[|r| - 4..] == ".png";
      r
  }

  /** Normalising a file name twice changes nothing more. */
  lemma QrFilenameIdempotent(name: string)
    ensures QrFilename(QrFilename(name)) == QrFilename(name)
  {
    var once := QrFilename(name);
    assert HasImageExtension(once);
  }

  lemma NoSlashAdded(b: string)
    requires '/' !in b
    ensures '/' !in QrFilename(b)
  {
    assert QrFilename(b) == b || QrFilename(b) == b + ".png";
  }

  /** `download_qr_code`: the attachment name of a stored QR image. */
  function DownloadName(storedName: string): (r: string)
    ensures '/' !in r
    ensures HasImageExtension(r)
    ensures HasImageExtension(Basename(storedName)) ==> r == Basename(storedName)
    ensures !HasImageExtension(Basename(storedName)) ==> r == Basename(storedName) + ".png"
  {
    var b := Basename(storedName);
    var r := QrFilename(b);
    NoSlashAdded(b);
    r
  }

  /** `get_qr_file_to_mail`: the file name and bytes handed to the mail task; the name follows the download rule. */
  function MailAttachment(storedName: string, content: seq<bv8>): (r: (string, seq<bv8>))
    ensures r.0 == DownloadName(storedName) && HasImageExtension(r.0)
    ensures r.1 == content
  {
    (QrFilename(Basename(storedName)), content)
  }
}
