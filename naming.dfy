/**
 * How the board service names an uploaded attachment: the storage key built from a random
 * token and the original file name, the locator saved with the post, the key recovered
 * from that locator, and the file name offered to the downloading user.
 */
module Naming {
  import opened Outcomes
  import opened JavaText

  /** The character placed between the token and the original file name. */
  const Separator: char := '_'

  predicate IsLowerHexDigit(c: char) {
    '0' <= c <= '9' || 'a' <= c <= 'f'
  }

  /** The text `UUID.toString()` produces: the canonical form of section 3 of RFC 4122,
      32 lower-case hex digits in groups of 8-4-4-4-12 joined by hyphens. */
  predicate IsCanonicalUuid(t: string) {
    && |t| == 36
    && forall i :: 0 <= i < 36 ==>
         if i == 8 || i == 13 || i == 18 || i == 23 then t[i] == '-' else IsLowerHexDigit(t[i])
  }

  lemma UuidHasNoSeparator(t: string)
    requires IsCanonicalUuid(t)
    ensures Separator !in t
  {
  }

  /** The storage key: the token, the separator, then the original file name. */
  function MakeKey(token: string, originalName: string): string {
    token + [Separator] + originalName
  }

  /** With a canonical token, the first separator of the key is the one right after the
      token, so the key splits back into the token and the whole original file name. */
  lemma FirstSeparatorEndsToken(token: string, originalName: string)
    requires IsCanonicalUuid(token)
    ensures IndexOf(MakeKey(token, originalName), [Separator]) == 36
    ensures MakeKey(token, originalName)[..36] == token
    ensures MakeKey(token, originalName)[37..] == originalName
  {
    var key := MakeKey(token, originalName);
    UuidHasNoSeparator(token);
    assert OccursAt(key, [Separator], 36) by {
      assert key[36..37] == [Separator];
    }
    forall j | 0 <= j < 36
      ensures !OccursAt(key, [Separator], j)
    {
      assert key[j] == token[j];
      assert key[j..j + 1] == [key[j]];
    }
    var first := IndexOf(key, [Separator]);
    assert 0 <= first;
    assert first == 36;
  }

  /** Two canonical tokens give the same key only for the same token and the same name,
      so a fresh token always gives a fresh key. */
  lemma KeyDeterminesTokenAndName(t1: string, f1: string, t2: string, f2: string)
    requires IsCanonicalUuid(t1) && IsCanonicalUuid(t2)
    requires MakeKey(t1, f1) == MakeKey(t2, f2)
    ensures t1 == t2 && f1 == f2
  {
    var k := MakeKey(t1, f1);
    assert k[..36] == t1 && k[37..] == f1;
    assert MakeKey(t2, f2)[..36] == t2 && MakeKey(t2, f2)[37..] == f2;
  }

  /** The text searched for in a locator: the bucket name between two slashes. */
  function Marker(bucket: string): string {
    "/" + bucket + "/"
  }

  /** The locator stored with a post: endpoint, bucket and key joined by slashes, that is,
      the endpoint, the marker, then the key. */
  function Locator(endPoint: string, bucket: string, key: string): string {
    endPoint + Marker(bucket) + key
  }

  /** The key of a locator: everything after the first occurrence of the marker. When the
      marker is absent, `indexOf` yields -1 and the text after index `|bucket| + 1` is taken,
      or `substring` throws if the locator is shorter than that. */
  function ExtractKey(path: string, bucket: string): (r: Result<string, Thrown>)
    ensures r.Ok? ==> |r.value| <= |path| && r.value == path[|path| - |r.value|..]
    ensures r.Err? ==> r.error == StringIndexOutOfBounds
    ensures r.Err? ==> forall i :: !OccursAt(path, Marker(bucket), i)
  {
    var marker := Marker(bucket);
    Substring(path, IndexOf(path, marker) + |marker|)
  }

  /** With the marker first occurring at `i`, the key is the text after that occurrence. */
  lemma ExtractKeyAfterFirstMarker(path: string, bucket: string, i: int)
    requires OccursAt(path, Marker(bucket), i)
    requires forall j :: 0 <= j < i ==> !OccursAt(path, Marker(bucket), j)
    ensures ExtractKey(path, bucket) == Ok(path[i + |Marker(bucket)|..])
  {
  }

  /** Without the marker, the key is the locator minus its first `|bucket| + 1` characters,
      or the extraction throws. */
  lemma ExtractKeyWithoutMarker(path: string, bucket: string)
    requires forall i :: !OccursAt(path, Marker(bucket), i)
    ensures ExtractKey(path, bucket) ==
      if |bucket| + 1 <= |path| then Ok(path[|bucket| + 1..]) else Err(StringIndexOutOfBounds)
  {
  }

  /** The marker first occurs in a locator right after the endpoint: it does not occur
      at any earlier index of `endPoint + Marker(bucket)`. */
  predicate LocatorsParse(endPoint: string, bucket: string) {
    forall i :: 0 <= i < |endPoint| ==> !OccursAt(endPoint + Marker(bucket), Marker(bucket), i)
  }

  /** An occurrence of the marker that starts inside the endpoint ends before the key does
      begin, so it does not depend on the key. */
  lemma EarlyMarkerIgnoresKey(endPoint: string, bucket: string, key: string, i: int)
    requires 0 <= i < |endPoint|
    ensures OccursAt(Locator(endPoint, bucket, key), Marker(bucket), i)
        <==> OccursAt(endPoint + Marker(bucket), Marker(bucket), i)
  {
  }

  /** Locator round trip: for every key, the key extracted from the locator is that key
      exactly when the endpoint does not itself hold the marker before the bucket part. */
  lemma {:induction false} LocatorRoundTrip(endPoint: string, bucket: string, key: string)
    ensures ExtractKey(Locator(endPoint, bucket, key), bucket) == Ok(key)
        <==> LocatorsParse(endPoint, bucket)
  {
    var m := Marker(bucket);
    var loc := Locator(endPoint, bucket, key);
    assert OccursAt(loc, m, |endPoint|) by {
      assert loc[|endPoint|..|endPoint| + |m|] == m;
    }
    if LocatorsParse(endPoint, bucket) {
      forall j | 0 <= j < |endPoint|
        ensures !OccursAt(loc, m, j)
      {
        EarlyMarkerIgnoresKey(endPoint, bucket, key, j);
      }
      ExtractKeyAfterFirstMarker(loc, bucket, |endPoint|);
      assert loc[|endPoint| + |m|..] == key;
    } else {
      var i :| 0 <= i < |endPoint| && OccursAt(endPoint + m, m, i);
      EarlyMarkerIgnoresKey(endPoint, bucket, key, i);
      var first := IndexOf(loc, m);
      assert 0 <= first <= i;
      assert ExtractKey(loc, bucket) == Ok(loc[first + |m|..]);
      assert |loc[first + |m|..]| > |key|;
    }
  }

  /** The file name offered on download: the text after the last separator of the key,
      or the whole key when it has none. */
  function DisplayName(key: string): (name: string)
    ensures Separator !in name
    ensures |name| <= |key| && name == key[|key| - |name|..]
    ensures Separator in key ==> |name| < |key| && key[|key| - |name| - 1] == Separator
    ensures Separator !in key ==> name == key
  {
    if Separator in key then key[LastIndexOf(key, Separator) + 1..] else key
  }

  /** The ensures of DisplayName determine it: a separator-free suffix that is the whole
      text or follows a separator is the display name. */
  lemma DisplayNameUnique(s: string, n: string)
    requires |n| <= |s| && n == s[|s| - |n|..] && Separator !in n
    requires |n| == |s| || s[|s| - |n| - 1] == Separator
    ensures DisplayName(s) == n
  {
  }

  /** Whatever the token, the display name of a key is the display name of the original
      file name: a separator inside the name cuts off everything before it. */
  lemma DisplayNameOfKey(token: string, originalName: string)
    ensures DisplayName(MakeKey(token, originalName)) == DisplayName(originalName)
  {
    var k := MakeKey(token, originalName);
    var d := DisplayName(originalName);
    assert k[|k| - |originalName|..] == originalName;
    assert k[|k| - |d|..] == d by {
      assert k[|k| - |d|..] == originalName[|originalName| - |d|..];
    }
    if Separator in originalName {
      assert k[|k| - |d| - 1] == originalName[|originalName| - |d| - 1];
    } else {
      assert k[|k| - |d| - 1] == Separator;
    }
    DisplayNameUnique(k, d);
  }

  /** File-name round trip: a name without the separator comes back unchanged. */
  lemma FilenameRoundTrip(token: string, originalName: string)
    requires Separator !in originalName
    ensures DisplayName(MakeKey(token, originalName)) == originalName
  {
    DisplayNameOfKey(token, originalName);
  }
}
