/**
 * Which places of a configuration are secret: those with a sensitive name among their segments, and
 * those that one of the caller's patterns covers.
 */
module SensitivePaths {
  import opened Strings

  // ---- The check as the source makes it -------------------------------------------------

  predicate SensitiveWord(word: string) {
    word in {
      "secret", "password", "apikey", "accesstoken", "refreshtoken", "authorization", "token",
      "vaulttoken", "clientsecret", "secretaccesskey", "pin", "sad", "authorizeauthdata", "auth",
      "keysource", "key", "privatekey", "jwk", "activejwk"
    }
  }

  function LowerChar(c: char): char {
    if 'A' <= c <= 'Z' then c - 'A' + 'a' else c
  }

  function LowerAscii(s: string): string {
    if s == "" then "" else [LowerChar(s[0])] + LowerAscii(s[1..])
  }

  /** A segment of the path is one of the sensitive names, whatever its case. */
  predicate SensitiveName(path: string) {
    exists segment :: segment in Split(path, '/') && SensitiveWord(LowerAscii(segment))
  }

  /** What a pattern is compared with: the path without a leading "/spec/", and then without a leading slash. */
  function Relative(path: string): string {
    var inSpec := if "/spec/" <= path then path[6..] else path;
    if "/" <= inSpec then inSpec[1..] else inSpec
  }

  predicate SensitivePattern(path: string, pattern: string) {
    var parts, actual := Split(pattern, '.'), Split(Relative(path), '/');
    forall i :: 0 <= i < |parts| ==> parts[i] == "*" || (i < |actual| && parts[i] == actual[i])
  }

  predicate Sensitive(path: string, patterns: seq<string>) {
    SensitiveName(path) || exists pattern :: pattern in patterns && SensitivePattern(path, pattern)
  }

  // ---- The names, as they are written ---------------------------------------------------

  /** The nineteen sensitive names. */
  predicate IsListed(name: string) {
    name in {
      "secret", "password", "apiKey", "accessToken", "refreshToken", "authorization", "token",
      "vaultToken", "clientSecret", "secretAccessKey", "pin", "sad", "authorizeAuthData", "auth",
      "keySource", "key", "privateKey", "jwk", "activeJwk"
    }
  }

  predicate IsUpperOf(upper: char, lower: char) {
    'A' <= upper <= 'Z' && lower as int == upper as int + 32
  }

  /** The texts differ at most in the case of ASCII letters. */
  predicate SameButForCase(a: string, b: string) {
    && |a| == |b|
    && forall k :: 0 <= k < |a| ==> a[k] == b[k] || IsUpperOf(a[k], b[k]) || IsUpperOf(b[k], a[k])
  }

  lemma {:induction false} LowerIs(s: string)
    ensures |LowerAscii(s)| == |s| && forall k :: 0 <= k < |s| ==> LowerAscii(s)[k] == LowerChar(s[k])
  {
    if s != "" {
      LowerIs(s[1..]);
    }
  }

  lemma LowerDecidesCase(a: string, b: string)
    ensures LowerAscii(a) == LowerAscii(b) <==> SameButForCase(a, b)
  {
    LowerIs(a);
    LowerIs(b);
    if LowerAscii(a) == LowerAscii(b) {
      assert forall k :: 0 <= k < |a| ==> LowerChar(a[k]) == LowerAscii(a)[k] == LowerChar(b[k]);
    }
  }

  lemma Spelled(name: string, word: string)
    requires |name| == |word|
    requires forall k :: 0 <= k < |name| ==> LowerChar(name[k]) == word[k]
    ensures LowerAscii(name) == word
  {
    LowerIs(name);
  }

  /** In lower case the name is the word, and it is one segment. */
  predicate IsPair(name: string, word: string) {
    LowerAscii(name) == word && '/' !in name
  }

  lemma Names1()
    ensures IsPair("secret", "secret")
    ensures IsPair("password", "password")
    ensures IsPair("apiKey", "apikey")
    ensures IsPair("accessToken", "accesstoken")
  {
    hide LowerAscii;
    Spelled("secret", "secret");
    Spelled("password", "password");
    Spelled("apiKey", "apikey");
    Spelled("accessToken", "accesstoken");
  }

  lemma Names2()
    ensures IsPair("refreshToken", "refreshtoken")
    ensures IsPair("authorization", "authorization")
    ensures IsPair("token", "token")
  {
    hide LowerAscii;
    Spelled("refreshToken", "refreshtoken");
    Spelled("authorization", "authorization");
    Spelled("token", "token");
  }

  lemma Names3()
    ensures IsPair("vaultToken", "vaulttoken")
    ensures IsPair("clientSecret", "clientsecret")
  {
    hide LowerAscii;
    Spelled("vaultToken", "vaulttoken");
    Spelled("clientSecret", "clientsecret");
  }

  lemma Names4()
    ensures IsPair("secretAccessKey", "secretaccesskey")
    ensures IsPair("pin", "pin")
    ensures IsPair("sad", "sad")
  {
    hide LowerAscii;
    Spelled("secretAccessKey", "secretaccesskey");
    Spelled("pin", "pin");
    Spelled("sad", "sad");
  }

  lemma Names5()
    ensures IsPair("authorizeAuthData", "authorizeauthdata")
    ensures IsPair("auth", "auth")
    ensures IsPair("keySource", "keysource")
  {
    hide LowerAscii;
    Spelled("authorizeAuthData", "authorizeauthdata");
    Spelled("auth", "auth");
    Spelled("keySource", "keysource");
  }

  lemma Names6()
    ensures IsPair("key", "key")
    ensures IsPair("privateKey", "privatekey")
    ensures IsPair("jwk", "jwk")
    ensures IsPair("activeJwk", "activejwk")
  {
    hide LowerAscii;
    Spelled("key", "key");
    Spelled("privateKey", "privatekey");
    Spelled("jwk", "jwk");
    Spelled("activeJwk", "activejwk");
  }

  lemma AllNames()
    ensures forall name :: IsListed(name) ==> exists word :: SensitiveWord(word) && IsPair(name, word)
    ensures forall word :: SensitiveWord(word) ==> exists name :: IsListed(name) && IsPair(name, word)
  {
    hide IsPair;
    Names1();
    Names2();
    Names3();
    Names4();
    Names5();
    Names6();
  }

  /** From `i` to `j` the path has one of the names, in any case, with ends of the path or slashes around it. */
  ghost predicate NamedBetween(path: string, i: nat, j: nat) {
    Between(path, '/', i, j) && exists name :: IsListed(name) && SameButForCase(path[i..j], name)
  }

  lemma NameHasNoSlash(text: string, name: string)
    requires SameButForCase(text, name) && '/' !in name
    ensures '/' !in text
  {
    assert forall k :: 0 <= k < |text| ==> name[k] in name;
  }

  lemma SensitiveNameExactly(path: string)
    ensures SensitiveName(path) <==> exists i: nat, j: nat :: NamedBetween(path, i, j)
  {
    AllNames();
    hide SensitiveWord, IsListed, SameButForCase, LowerAscii, Split, Between;
    if SensitiveName(path) {
      var segment :| segment in Split(path, '/') && SensitiveWord(LowerAscii(segment));
      var i, j := PartIsBetween(path, '/', segment);
      var name :| IsListed(name) && IsPair(name, LowerAscii(segment));
      LowerDecidesCase(segment, name);
      assert NamedBetween(path, i, j);
    }
    if i: nat, j: nat :| NamedBetween(path, i, j) {
      assert i <= j <= |path| by {
        BetweenBounds(path, i, j);
      }
      var name :| IsListed(name) && SameButForCase(path[i..j], name);
      LowerDecidesCase(path[i..j], name);
      NameHasNoSlash(path[i..j], name);
      BetweenIsPart(path, '/', i, j);
    }
  }

  lemma BetweenBounds(path: string, i: nat, j: nat)
    requires Between(path, '/', i, j)
    ensures i <= j <= |path|
  {
  }

  // ---- Patterns, in their own terms -----------------------------------------------------

  /** `head` is what a path starting with it and going on with `rest` is read without. */
  predicate IsHead(head: string, rest: string) {
    || head == "/spec//"
    || (head == "/spec/" && (rest == "" || rest[0] != '/'))
    || (head == "/" && !("spec/" <= rest))
    || (head == "" && (rest == "" || rest[0] != '/'))
  }

  /** The path is a head and segments with slashes, the pattern its parts with dots. */
  predicate Written(path: string, pattern: string, head: string, segments: seq<string>, parts: seq<string>) {
    && segments != [] && Without(segments, '/') && path == head + Join(segments, '/')
    && IsHead(head, Join(segments, '/'))
    && parts != [] && Without(parts, '.') && pattern == Join(parts, '.')
  }

  /** Every part of the pattern is a star or the segment at its place. */
  predicate PartsMatch(parts: seq<string>, segments: seq<string>) {
    forall k :: 0 <= k < |parts| ==> parts[k] == "*" || (k < |segments| && parts[k] == segments[k])
  }

  lemma SlashSpec(rest: string)
    ensures "/spec/" <= "/" + rest <==> "spec/" <= rest
  {
    assert "/spec/" == "/" + "spec/";
    if "/spec/" <= "/" + rest {
      assert ("/" + rest)[1..6] == rest[..5];
      assert "/spec/"[1..] == "spec/";
    }
  }

  lemma RelativeOf(head: string, rest: string)
    requires IsHead(head, rest)
    ensures Relative(head + rest) == rest
  {
    var path := head + rest;
    if head == "/spec//" {
      assert path == "/spec/" + ("/" + rest);
      assert path[6..] == "/" + rest;
    } else if head == "/spec/" {
      assert path[6..] == rest;
    } else if head == "/" {
      SlashSpec(rest);
    } else {
      assert path == rest;
    }
  }

  lemma PatternExactly(path: string, pattern: string, head: string, segments: seq<string>, parts: seq<string>)
    requires Written(path, pattern, head, segments, parts)
    ensures SensitivePattern(path, pattern) <==> PartsMatch(parts, segments)
  {
    hide Relative, Split, IsHead;
    RelativeOf(head, Join(segments, '/'));
    JoinSplit(segments, '/');
    JoinSplit(parts, '.');
  }

  /** Every path and every pattern can be written so. */
  lemma CanBeWritten(path: string, pattern: string)
    returns (head: string, segments: seq<string>, parts: seq<string>)
    ensures Written(path, pattern, head, segments, parts)
  {
    var rest := Relative(path);
    head := path[..|path| - |rest|];
    segments, parts := Split(rest, '/'), Split(pattern, '.');
    SplitJoin(rest, '/');
    SplitJoin(pattern, '.');
    hide Split, Join;
    assert path == head + rest && IsHead(head, rest) by {
      HeadOf(path);
    }
  }

  lemma HeadOf(path: string)
    ensures |Relative(path)| <= |path|
    ensures var rest := Relative(path); var head := path[..|path| - |rest|];
      path == head + rest && IsHead(head, rest)
  {
    if "/spec/" <= path {
      assert path[..6] == "/spec/";
      if "/" <= path[6..] {
        assert path[..7] == "/spec//";
      }
    } else if "/" <= path {
      assert path[..1] == "/";
      assert path == "/" + path[1..];
      SlashSpec(path[1..]);
    }
  }

  ghost predicate PatternCovers(path: string, pattern: string) {
    exists head, segments, parts :: Written(path, pattern, head, segments, parts) && PartsMatch(parts, segments)
  }

  /** A sensitive name is among the segments of the path, or a pattern covers it. */
  ghost predicate IsSecretPath(path: string, patterns: seq<string>) {
    || (exists i: nat, j: nat :: NamedBetween(path, i, j))
    || (exists pattern :: pattern in patterns && PatternCovers(path, pattern))
  }

  lemma SensitivePatternExactly(path: string, pattern: string)
    ensures SensitivePattern(path, pattern) <==> PatternCovers(path, pattern)
  {
    hide SensitivePattern, Written;
    var head, segments, parts := CanBeWritten(path, pattern);
    PatternExactly(path, pattern, head, segments, parts);
    if head, segments, parts :| Written(path, pattern, head, segments, parts) && PartsMatch(parts, segments) {
      PatternExactly(path, pattern, head, segments, parts);
    }
  }

  lemma SensitiveExactly(path: string, patterns: seq<string>)
    ensures Sensitive(path, patterns) <==> IsSecretPath(path, patterns)
  {
    hide SensitiveName, SensitivePattern, NamedBetween, PatternCovers;
    SensitiveNameExactly(path);
    forall pattern
      ensures SensitivePattern(path, pattern) <==> PatternCovers(path, pattern)
    {
      SensitivePatternExactly(path, pattern);
    }
  }
}
