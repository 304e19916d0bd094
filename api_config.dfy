/** The API configuration: the base-URL normaliser that repairs a configured
    URL with a duplicated domain or a missing scheme, the check for missing
    environment variables, and the readiness test. The environment values are
    parameters. */
module ApiConfig {
  import opened Util

  /** `url.replace(/\/+$/, '')`: the trailing run of slashes removed. */
  function StripTrailingSlashes(url: string): (r: string)
    ensures |r| <= |url| && url[..|r|] == r
    ensures |r| == 0 || r[|r| - 1] != '/'
    ensures forall i :: |r| <= i < |url| ==> url[i] == '/'
    decreases |url|
  {
    if |url| > 0 && url[|url| - 1] == '/' then StripTrailingSlashes(url[..|url| - 1]) else url
  }

  /** `s.split('/')`: the pieces between slashes, empty ones included; the
      empty string splits into one empty piece. */
  function Split(s: string): (parts: seq<string>)
    ensures |parts| >= 1
    ensures forall k :: 0 <= k < |parts| ==> '/' !in parts[k]
    decreases |s|
  {
    if |s| == 0 then [""]
    else
      var rest := Split(s[1..]);
      if s[0] == '/' then [""] + rest else [[s[0]] + rest[0]] + rest[1..]
  }

  /** Joining the pieces with `/` gives the string back. */
  lemma {:induction false} JoinSplit(s: string)
    ensures Join(Split(s), "/") == s
    decreases |s|
  {
    if |s| > 0 {
      var rest := Split(s[1..]);
      JoinSplit(s[1..]);
      if s[0] == '/' {
        assert Split(s) == [""] + rest;
        assert ([""] + rest)[1..] == rest;
      } else {
        var parts := [[s[0]] + rest[0]] + rest[1..];
        assert Split(s) == parts;
        if |rest| > 1 {
          assert parts[1..] == rest[1..];
        }
      }
    }
  }

  /** The piece at `i` survives the duplicate filter: it is not empty, and if
      it holds a dot (a domain) it has not occurred before. */
  predicate Kept(parts: seq<string>, i: int)
    requires 0 <= i < |parts|
  {
    parts[i] != "" && ('.' !in parts[i] || forall j :: 0 <= j < i ==> parts[j] != parts[i])
  }

  /** The pieces that survive, in their original order. */
  function KeptParts(parts: seq<string>): seq<string>
    decreases |parts|
  {
    if |parts| == 0 then []
    else
      var n := |parts| - 1;
      KeptParts(parts[..n]) + (if Kept(parts, n) then [parts[n]] else [])
  }

  /** Every surviving piece comes from the input and is not empty. */
  lemma {:induction false} KeptPartsFrom(parts: seq<string>)
    ensures forall k :: 0 <= k < |KeptParts(parts)| ==> KeptParts(parts)[k] in parts && KeptParts(parts)[k] != ""
    decreases |parts|
  {
    if |parts| > 0 {
      var n := |parts| - 1;
      KeptPartsFrom(parts[..n]);
      forall k | 0 <= k < |KeptParts(parts[..n])|
        ensures KeptParts(parts[..n])[k] in parts
      {
        var x := KeptParts(parts[..n])[k];
        var j :| 0 <= j < n && parts[..n][j] == x;
        assert parts[j] == x;
      }
    }
  }

  /** No piece holding a dot occurs twice. */
  predicate DomainsOnce(r: seq<string>) {
    forall a, b :: 0 <= a < b < |r| && r[a] == r[b] ==> '.' !in r[a]
  }

  /** No domain survives twice. */
  lemma {:induction false} KeptDomainsOnce(parts: seq<string>)
    ensures DomainsOnce(KeptParts(parts))
    decreases |parts|
  {
    if |parts| > 0 {
      var n := |parts| - 1;
      KeptDomainsOnce(parts[..n]);
      KeptPartsFrom(parts[..n]);
      var prev := KeptParts(parts[..n]);
      var r := KeptParts(parts);
      if Kept(parts, n) {
        assert r == prev + [parts[n]];
        forall a, b | 0 <= a < b < |r| && r[a] == r[b]
          ensures '.' !in r[a]
        {
          if b < |prev| {
            assert r[a] == prev[a] && r[b] == prev[b];
          }
        }
      } else {
        assert r == prev;
      }
    }
  }

  /** The same filter as a loop over the pieces, keeping the set of domains
      seen so far, as `normalizeApiUrl` runs it. */
  method UniqueParts(parts: seq<string>) returns (uniqueParts: seq<string>)
    ensures uniqueParts == KeptParts(parts)
  {
    uniqueParts := [];
    var seenDomains: set<string> := {};
    var i := 0;
    while i < |parts|
      invariant 0 <= i <= |parts|
      invariant uniqueParts == KeptParts(parts[..i])
      invariant forall p :: p in seenDomains <==> '.' in p && exists j :: 0 <= j < i && parts[j] == p
    {
      var part := parts[i];
      assert parts[..i + 1][..i] == parts[..i];
      if '.' in part && part in seenDomains {
        assert !Kept(parts[..i + 1], i);
      } else {
        if '.' in part {
          seenDomains := seenDomains + {part};
        }
        if part != "" {
          uniqueParts := uniqueParts + [part];
        }
        assert Kept(parts[..i + 1], i) <==> part != "";
      }
      i := i + 1;
    }
    assert parts[..i] == parts;
  }

  /** What `normalizeApiUrl(url)` returns. */
  function NormalizedUrl(url: string): string {
    if url == "" then ""
    else
      var clean := StripTrailingSlashes(url);
      if StartsWith(clean, "http://") || StartsWith(clean, "https://") then clean
      else
        var joined := Join(KeptParts(Split(clean)), "/");
        if '.' in joined && !StartsWith(joined, "http") then "https://" + joined else joined
  }

  /** `normalizeApiUrl`: strips trailing slashes, returns a URL with a scheme
      as it is, and otherwise drops empty pieces and repeated domains and adds
      `https://` to a result with a dot and no `http` prefix. */
  method NormalizeApiUrl(url: string) returns (r: string)
    ensures r == NormalizedUrl(url)
  {
    if url == "" {
      return "";
    }
    var cleanUrl := StripTrailingSlashes(url);
    if StartsWith(cleanUrl, "http://") || StartsWith(cleanUrl, "https://") {
      return cleanUrl;
    }
    var uniqueParts := UniqueParts(Split(cleanUrl));
    var normalizedUrl := Join(uniqueParts, "/");
    if '.' in normalizedUrl && !StartsWith(normalizedUrl, "http") {
      return "https://" + normalizedUrl;
    }
    return normalizedUrl;
  }

  /** A joined list ends with its last piece. */
  lemma {:induction false} JoinEndsWithLast(parts: seq<string>, sep: string)
    requires |parts| >= 1
    ensures EndsWith(Join(parts, sep), parts[|parts| - 1])
    decreases |parts|
  {
    if |parts| > 1 {
      JoinEndsWithLast(parts[1..], sep);
      assert parts[1..][|parts[1..]| - 1] == parts[|parts| - 1];
      var tail := Join(parts[1..], sep);
      assert Join(parts, sep) == (parts[0] + sep) + tail;
    }
  }

  /** No normalised URL ends with a slash. */
  lemma NormalizedNoTrailingSlash(url: string)
    ensures var r := NormalizedUrl(url); |r| == 0 || r[|r| - 1] != '/'
  {
    var clean := StripTrailingSlashes(url);
    if url != "" && !(StartsWith(clean, "http://") || StartsWith(clean, "https://")) {
      var kept := KeptParts(Split(clean));
      KeptPartsFrom(Split(clean));
      if |kept| > 0 {
        JoinEndsWithLast(kept, "/");
        var last := kept[|kept| - 1];
        var j := Join(kept, "/");
        assert j[|j| - 1] == last[|last| - 1];
        SplitNoSlash(Split(clean), last);
      }
    }
  }

  lemma SplitNoSlash(parts: seq<string>, piece: string)
    requires forall k :: 0 <= k < |parts| ==> '/' !in parts[k]
    requires piece in parts && piece != ""
    ensures piece[|piece| - 1] != '/'
  {
    var k :| 0 <= k < |parts| && parts[k] == piece;
    assert piece[|piece| - 1] in parts[k];
  }

  /** A URL that already has a scheme and no trailing slash is left as it is. */
  lemma NormalizedKeepsFullUrl(url: string)
    requires StartsWith(url, "http://") || StartsWith(url, "https://")
    requires url[|url| - 1] != '/'
    ensures NormalizedUrl(url) == url
  {
  }

  /** `https://` is put in front exactly when the joined pieces hold a dot and
      do not already start with `http`; a repeated domain survives only once. */
  lemma NormalizedDomains(url: string)
    requires url != ""
    requires var clean := StripTrailingSlashes(url);
      !(StartsWith(clean, "http://") || StartsWith(clean, "https://"))
    ensures var joined := Join(KeptParts(Split(StripTrailingSlashes(url))), "/");
      && ('.' in joined && !StartsWith(joined, "http") <==> NormalizedUrl(url) == "https://" + joined)
      && ('.' !in joined || StartsWith(joined, "http") <==> NormalizedUrl(url) == joined)
    ensures DomainsOnce(KeptParts(Split(StripTrailingSlashes(url))))
  {
    KeptDomainsOnce(Split(StripTrailingSlashes(url)));
  }

  /** JavaScript's `trim` removes these: the white-space and line-terminator
      characters of the ECMAScript grammar. */
  predicate IsJsWhitespace(c: char) {
    c == '\t' || c == '\n' || c == '\U{000B}' || c == '\U{000C}' || c == '\r' || c == ' '
    || c == '\U{00A0}' || c == '\U{1680}' || ('\U{2000}' <= c <= '\U{200A}')
    || c == '\U{2028}' || c == '\U{2029}' || c == '\U{202F}' || c == '\U{205F}'
    || c == '\U{3000}' || c == '\U{FEFF}'
  }

  /** `!value || value.trim() === ''`: unset, empty or only white space. */
  predicate Blank(value: Option<string>) {
    value.None? || forall k :: 0 <= k < |value.value| ==> IsJsWhitespace(value.value[k])
  }

  /** The names reported for the blank entries, in entry order. */
  function MissingVars(entries: seq<(string, Option<string>)>): seq<string>
    decreases |entries|
  {
    if |entries| == 0 then []
    else
      var n := |entries| - 1;
      MissingVars(entries[..n]) + (if Blank(entries[n].1) then ["VITE_" + entries[n].0] else [])
  }

  /** A name is reported exactly when it is `VITE_` followed by the key of a
      blank entry. */
  lemma {:induction false} MissingVarsExactly(entries: seq<(string, Option<string>)>, name: string)
    ensures name in MissingVars(entries) <==>
              exists i :: 0 <= i < |entries| && Blank(entries[i].1) && name == "VITE_" + entries[i].0
    decreases |entries|
  {
    if |entries| > 0 {
      var n := |entries| - 1;
      MissingVarsExactly(entries[..n], name);
      if exists i :: 0 <= i < |entries| && Blank(entries[i].1) && name == "VITE_" + entries[i].0 {
        var i :| 0 <= i < |entries| && Blank(entries[i].1) && name == "VITE_" + entries[i].0;
        if i < n {
          assert entries[..n][i] == entries[i];
        }
      }
      if name in MissingVars(entries[..n]) {
        var i :| 0 <= i < n && Blank(entries[..n][i].1) && name == "VITE_" + entries[..n][i].0;
        assert entries[i] == entries[..n][i];
      }
    }
  }

  /** `validateEnvVars`: collects the missing names over the entries of
      `requiredEnvVars`; a non-empty result is what the source warns about. */
  method ValidateEnvVars(entries: seq<(string, Option<string>)>) returns (missing: seq<string>)
    ensures missing == MissingVars(entries)
  {
    missing := [];
    var i := 0;
    while i < |entries|
      invariant 0 <= i <= |entries|
      invariant missing == MissingVars(entries[..i])
    {
      assert entries[..i + 1][..i] == entries[..i];
      if Blank(entries[i].1) {
        missing := missing + ["VITE_" + entries[i].0];
      }
      i := i + 1;
    }
    assert entries[..i] == entries;
  }

  /** The two entries of `requiredEnvVars`, in declaration order. */
  function RequiredEnvVars(apiUrl: Option<string>, botUsername: Option<string>): seq<(string, Option<string>)> {
    [("API_URL", apiUrl), ("TELEGRAM_BOT_USERNAME", botUsername)]
  }

  /** `isApiConfigured`: both the normalised base URL and the bot name are set
      and non-empty. */
  function IsApiConfigured(baseUrl: string, botUsername: Option<string>): (ok: bool)
    ensures ok ==> |baseUrl| > 0 && botUsername.Some?
    ensures ok <==> baseUrl != "" && botUsername != None && botUsername != Some("")
  {
    baseUrl != "" && botUsername.Some? && botUsername.value != ""
  }

  /** A bot name the validator does not report is one the readiness test
      accepts; the URL can still be reported as configured yet normalise to
      empty (a value of only slashes), which readiness then rejects. */
  lemma ConfiguredBotName(apiUrl: Option<string>, botUsername: Option<string>, baseUrl: string)
    requires "VITE_TELEGRAM_BOT_USERNAME" !in MissingVars(RequiredEnvVars(apiUrl, botUsername))
    requires baseUrl != ""
    ensures IsApiConfigured(baseUrl, botUsername)
  {
    var e := RequiredEnvVars(apiUrl, botUsername);
    MissingVarsExactly(e, "VITE_TELEGRAM_BOT_USERNAME");
    assert !Blank(e[1].1);
  }
}
