/**
 * From object key to public URL and back: the storage client's own inverse
 * (packages/common-rust/src/storage.rs) and the chat service's second one
 * (services/chat/src/api.rs `build_s3_key`).
 */
module ObjectUrls {
  import opened Prelude

  function PublicUrl(base: string, bucket: string, key: string): string {
    base + "/" + bucket + "/" + key
  }

  function StripPrefix(prefix: string, s: string): Option<string> {
    if prefix <= s then Some(s[|prefix|..]) else None
  }

  function KeyFromUrl(base: string, bucket: string, url: string): Option<string> {
    StripPrefix(base + "/" + bucket + "/", url)
  }

  /** What follows the first slash. */
  function PastSlash(s: string): Option<string> {
    if s == [] then None else if s[0] == '/' then Some(s[1..]) else PastSlash(s[1..])
  }

  function WithoutScheme(url: string): Option<string> {
    var https := StripPrefix("https://", url);
    if https.Some? then https else StripPrefix("http://", url)
  }

  /** Drops the scheme and two slash-terminated segments. */
  function BuildS3Key(url: string): Option<string> {
    var text := WithoutScheme(url);
    if text.None? then None
    else
      var path := PastSlash(text.value);
      if path.None? then None else PastSlash(path.value)
  }

  /**
   * A URL has a key exactly when it is the URL of that key; this holds for every base,
   * with or without a trailing slash.
   */
  lemma KeyFromUrlInverts(base: string, bucket: string, url: string, key: string)
    ensures KeyFromUrl(base, bucket, url) == Some(key) <==> url == PublicUrl(base, bucket, key)
  {
    var prefix := base + "/" + bucket + "/";
    if prefix <= url {
      assert url == prefix + url[|prefix|..];
    }
    assert (prefix + key)[|prefix|..] == key;
  }

  lemma {:induction false} PastSlashOf(a: string, b: string)
    ensures '/' !in a ==> PastSlash(a + "/" + b) == Some(b)
    ensures '/' in a ==> PastSlash(a + "/" + b).Some? && |PastSlash(a + "/" + b).value| > |b|
    ensures '/' in a ==> PastSlash(a).Some? && PastSlash(a + "/" + b).value == PastSlash(a).value + "/" + b
    decreases a
  {
    if a == [] {
      assert (a + "/" + b)[1..] == b;
    } else {
      assert (a + "/" + b)[0] == a[0] && (a + "/" + b)[1..] == a[1..] + "/" + b;
      assert '/' in a <==> a[0] == '/' || '/' in a[1..];
      PastSlashOf(a[1..], b);
    }
  }

  lemma SchemeStripped(scheme: string, host: string, bucket: string, key: string)
    requires scheme == "https://" || scheme == "http://"
    ensures WithoutScheme(PublicUrl(scheme + host, bucket, key)) == Some(host + "/" + (bucket + "/" + key))
  {
    var url := PublicUrl(scheme + host, bucket, key);
    assert url == scheme + (host + "/" + (bucket + "/" + key));
    if scheme == "http://" {
      assert url[4] == ':' && "https://"[4] == 's';
    }
  }

  /**
   * The chat service's inverse agrees with the storage client's exactly when the public
   * base is a bare origin: any path in it (or slash in the bucket) ends up in the key.
   */
  lemma BuildS3KeyIsRightIff(scheme: string, host: string, bucket: string, key: string)
    requires scheme == "https://" || scheme == "http://"
    ensures BuildS3Key(PublicUrl(scheme + host, bucket, key)) == Some(key) <==> '/' !in host && '/' !in bucket
  {
    SchemeStripped(scheme, host, bucket, key);
    PastSlashOf(host, bucket + "/" + key);
    if '/' in host {
      var rest := PastSlash(host).value;
      assert rest + "/" + (bucket + "/" + key) == rest + "/" + bucket + "/" + key;
      PastSlashOf(rest + "/" + bucket, key);
      assert (rest + "/" + bucket)[|rest|] == '/';
    } else {
      PastSlashOf(bucket, key);
    }
  }

  /** Behind a reverse proxy that serves the store under one path segment, the key gains the bucket. */
  lemma PathInBaseLeaksIntoKey(scheme: string, origin: string, path: string, bucket: string, key: string)
    requires scheme == "https://" || scheme == "http://"
    requires '/' !in origin && '/' !in path
    ensures BuildS3Key(PublicUrl(scheme + (origin + "/" + path), bucket, key)) == Some(bucket + "/" + key)
  {
    SchemeStripped(scheme, origin + "/" + path, bucket, key);
    assert origin + "/" + path + "/" + (bucket + "/" + key) == origin + "/" + (path + "/" + (bucket + "/" + key));
    PastSlashOf(origin, path + "/" + (bucket + "/" + key));
    PastSlashOf(path, bucket + "/" + key);
  }
}
