/**
 * Database client configuration: the missing-credential check and the rewrite of a
 * PostgreSQL connection string into the project's HTTPS API URL, which the client uses
 * instead of the configured URL when the pattern `db.<ref>.supabase.co` is found.
 */
module Supabase {
  import opened Values
  import opened Strings

  const PostgresScheme := "postgresql://"
  const HostPrefix := "db."
  const HostSuffix := ".supabase.co"
  const MissingCredentialsMessage := "Supabase URL and Key must be provided in environment variables"

  /** The client the module builds, or the error it throws at load time. */
  datatype ClientConfig =
    | Configured(apiUrl: string, key: string)
    | MissingCredentials(message: string)

  predicate DotFree(r: string) {
    forall t :: 0 <= t < |r| ==> r[t] != '.'
  }

  /**
   * `url` holds `db.<ref>.supabase.co` at index `i` for a non-empty, dot-free `<ref>`:
   * what the pattern /db\.([^.]+)\.supabase\.co/ matches there, with `<ref>` its group.
   */
  predicate RefAt(url: string, i: int, ref: string) {
    |ref| > 0 && DotFree(ref) && OccursAt(url, HostPrefix + ref + HostSuffix, i)
  }

  /** The end of the run of non-dot characters that starts at `j`. */
  function RunEnd(s: string, j: int): (k: int)
    requires 0 <= j <= |s|
    ensures j <= k <= |s|
    ensures forall t :: j <= t < k ==> s[t] != '.'
    ensures k == |s| || s[k] == '.'
    decreases |s| - j
  {
    if j == |s| || s[j] == '.' then j else RunEnd(s, j + 1)
  }

  /** The pattern tried at index `i` alone: `[^.]+` takes the whole run of non-dots. */
  function RefMatchAt(s: string, i: int): Option<string>
    requires 0 <= i <= |s|
  {
    if !OccursAt(s, HostPrefix, i) then None
    else
      var k := RunEnd(s, i + 3);
      if k > i + 3 && StartsWith(s[k..], HostSuffix) then Some(s[i + 3..k]) else None
  }

  /** A local match is an occurrence of the pattern with that group. */
  lemma MatchIsRef(s: string, i: int, ref: string)
    requires 0 <= i <= |s| && RefMatchAt(s, i) == Some(ref)
    ensures RefAt(s, i, ref)
  {
    var whole := HostPrefix + ref + HostSuffix;
    var k := RunEnd(s, i + 3);
    assert ref == s[i + 3..k];
    assert s[i..i + |whole|] == s[i..i + 3] + s[i + 3..k] + s[k..k + |HostSuffix|];
  }

  /** An occurrence of the pattern is found by the local match, with the same group. */
  lemma RefIsMatch(s: string, i: int, ref: string)
    requires 0 <= i <= |s| && RefAt(s, i, ref)
    ensures RefMatchAt(s, i) == Some(ref)
  {
    OccursInParts(s, HostPrefix, ref, HostSuffix, i);
    var m := i + 3 + |ref|;
    assert s[i + 3..m] == ref;
    assert s[m] == s[m..m + |HostSuffix|][0] == '.';
    var k := RunEnd(s, i + 3);
    assert forall t :: i + 3 <= t < m ==> s[t] != '.' by {
      forall t | i + 3 <= t < m ensures s[t] != '.' { assert s[t] == ref[t - (i + 3)]; }
    }
    assert k == m;
  }

  /** The local match agrees with the meaning of the pattern, and its group is unique. */
  lemma RefMatchAtMeaning(s: string, i: int, ref: string)
    requires 0 <= i <= |s|
    ensures RefMatchAt(s, i) == Some(ref) <==> RefAt(s, i, ref)
  {
    if RefMatchAt(s, i) == Some(ref) {
      MatchIsRef(s, i, ref);
    }
    if RefAt(s, i, ref) {
      RefIsMatch(s, i, ref);
    }
  }

  /** The pattern tried at each index from `i` on; the first match wins. */
  function FindRef(s: string, i: int): (r: Option<string>)
    requires 0 <= i <= |s|
    ensures r.Some? ==> |r.value| > 0 && DotFree(r.value)
    decreases |s| - i
  {
    match RefMatchAt(s, i)
    case Some(ref) => Some(ref)
    case None => if i == |s| then None else FindRef(s, i + 1)
  }

  /** FindRef finds the match at the leftmost index where the pattern matches, and None when it matches nowhere. */
  lemma {:induction false} FindRefIsLeftmost(s: string, i: int)
    requires 0 <= i <= |s|
    ensures FindRef(s, i).None? <==> forall j :: i <= j <= |s| ==> RefMatchAt(s, j).None?
    ensures FindRef(s, i).Some? ==>
              exists j :: i <= j <= |s| && RefMatchAt(s, j) == FindRef(s, i) &&
                          forall j' :: i <= j' < j ==> RefMatchAt(s, j').None?
    decreases |s| - i
  {
    var here := RefMatchAt(s, i);
    if here.Some? {
      assert FindRef(s, i) == here;
    } else if i < |s| {
      FindRefIsLeftmost(s, i + 1);
      assert FindRef(s, i) == FindRef(s, i + 1);
      if FindRef(s, i).Some? {
        var j :| i + 1 <= j <= |s| && RefMatchAt(s, j) == FindRef(s, i + 1) &&
                 forall j' :: i + 1 <= j' < j ==> RefMatchAt(s, j').None?;
        assert forall j' :: i <= j' < j ==> RefMatchAt(s, j').None?;
      }
    }
  }

  /** The URL the client is created with (`apiUrl`). */
  function ApiUrl(url: string): (r: string)
    ensures !StartsWith(url, PostgresScheme) ==> r == url
  {
    if !StartsWith(url, PostgresScheme) then url
    else
      match FindRef(url, 0)
      case Some(ref) => "https://" + ref + HostSuffix
      case None => url
  }

  /** A PostgreSQL URL whose leftmost `db.<ref>.supabase.co` names `ref` becomes `https://<ref>.supabase.co`. */
  lemma RewritesToProjectUrl(url: string, i: int, ref: string)
    requires StartsWith(url, PostgresScheme)
    requires 0 <= i <= |url| && RefAt(url, i, ref)
    requires forall j, other :: 0 <= j < i ==> !RefAt(url, j, other)
    ensures ApiUrl(url) == "https://" + ref + ".supabase.co"
  {
    RefMatchAtMeaning(url, i, ref);
    FindRefIsLeftmost(url, 0);
    var found := FindRef(url, 0);
    assert found.Some?;
    var j :| 0 <= j <= |url| && RefMatchAt(url, j) == found &&
             forall j' :: 0 <= j' < j ==> RefMatchAt(url, j').None?;
    if j < i {
      RefMatchAtMeaning(url, j, found.value);
      assert false;
    } else if j > i {
      assert false;
    }
  }

  /** A PostgreSQL URL with no `db.<ref>.supabase.co` in it is used unchanged. */
  lemma KeepsUrlWithoutPattern(url: string)
    requires forall j, ref :: 0 <= j <= |url| ==> !RefAt(url, j, ref)
    ensures ApiUrl(url) == url
  {
    if StartsWith(url, PostgresScheme) {
      FindRefIsLeftmost(url, 0);
      forall j | 0 <= j <= |url| ensures RefMatchAt(url, j).None? {
        if RefMatchAt(url, j).Some? {
          RefMatchAtMeaning(url, j, RefMatchAt(url, j).value);
        }
      }
    }
  }

  /** Module load: both credentials must be present (truthy), then the URL is rewritten. */
  function Configure(url: Option<string>, key: Option<string>): (r: ClientConfig)
    ensures r.MissingCredentials? <==> !Truthy(url) || !Truthy(key)
    ensures r.Configured? ==> r.apiUrl == ApiUrl(url.value) && r.key == key.value
  {
    if !Truthy(url) || !Truthy(key) then MissingCredentials(MissingCredentialsMessage)
    else Configured(ApiUrl(url.value), key.value)
  }
}
