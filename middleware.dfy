/** The bearer-token check `get_bearer_token`: reject empty credentials, take
    the last whitespace-separated word, compare it with the configured secret. */
module Middleware {

  /** Python's `str.isspace` for one character, which is what `str.split()`
      with no argument splits on. */
  const SpaceChars: set<char> := {
    ' ', '\t', '\n', '\r', '\U{0B}', '\U{0C}', '\U{1C}', '\U{1D}', '\U{1E}', '\U{1F}',
    '\U{85}', '\U{A0}', '\U{1680}',
    '\U{2000}', '\U{2001}', '\U{2002}', '\U{2003}', '\U{2004}', '\U{2005}',
    '\U{2006}', '\U{2007}', '\U{2008}', '\U{2009}', '\U{200A}',
    '\U{2028}', '\U{2029}', '\U{202F}', '\U{205F}', '\U{3000}'
  }

  predicate IsSpace(c: char)
  {
    c in SpaceChars
  }

  /** From index `i` on, `s` holds only whitespace. */
  predicate SpacesFrom(s: string, i: nat)
  {
    forall k :: i <= k < |s| ==> IsSpace(s[k])
  }

  predicate AllSpace(s: string)
  {
    SpacesFrom(s, 0)
  }

  /** A word of `split()`'s output: non-empty, without whitespace. */
  predicate IsWord(w: string)
  {
    w != [] && forall i :: 0 <= i < |w| ==> !IsSpace(w[i])
  }

  /** Where the run of non-whitespace characters starting at `i` ends. */
  function WordEndFrom(s: string, i: nat): (e: nat)
    requires i <= |s|
    ensures i <= e <= |s|
    ensures i < |s| && !IsSpace(s[i]) ==> i < e
    decreases |s| - i
  {
    if i == |s| || IsSpace(s[i]) then i else WordEndFrom(s, i + 1)
  }

  /** The run is free of whitespace and stops at whitespace or at the end. */
  lemma {:induction false} WordEndFromSpec(s: string, i: nat)
    requires i <= |s|
    ensures forall k :: i <= k < WordEndFrom(s, i) ==> !IsSpace(s[k])
    ensures WordEndFrom(s, i) < |s| ==> IsSpace(s[WordEndFrom(s, i)])
    decreases |s| - i
  {
    if i < |s| && !IsSpace(s[i]) {
      WordEndFromSpec(s, i + 1);
    }
  }

  /** `str.split()` on what follows index `i`: the maximal runs of
      non-whitespace characters, in order. */
  function SplitFrom(s: string, i: nat): seq<string>
    requires i <= |s|
    decreases |s| - i
  {
    if i == |s| then []
    else if IsSpace(s[i]) then SplitFrom(s, i + 1)
    else
      var e := WordEndFrom(s, i);
      [s[i..e]] + SplitFrom(s, e)
  }

  /** `str.split()` with no argument. */
  function Split(s: string): seq<string>
  {
    SplitFrom(s, 0)
  }

  /** Every piece of a split is a word. */
  lemma {:induction false} SplitWords(s: string, i: nat)
    requires i <= |s|
    ensures forall k :: 0 <= k < |SplitFrom(s, i)| ==> IsWord(SplitFrom(s, i)[k])
    decreases |s| - i
  {
    if i < |s| {
      if IsSpace(s[i]) {
        SplitWords(s, i + 1);
      } else {
        var e := WordEndFrom(s, i);
        SplitWords(s, e);
        WordEndFromSpec(s, i);
        assert IsWord(s[i..e]);
      }
    }
  }

  /** Nothing but whitespace splits into no words at all. */
  lemma {:induction false} SplitEmptyIff(s: string, i: nat)
    requires i <= |s|
    ensures SplitFrom(s, i) == [] <==> SpacesFrom(s, i)
    decreases |s| - i
  {
    if i < |s| && IsSpace(s[i]) {
      SplitEmptyIff(s, i + 1);
    }
  }

  /** A run inside the suffix `s[k..]` ends where it ends in that suffix. */
  lemma {:induction false} WordEndFromSuffix(s: string, k: nat, j: nat)
    requires k <= |s| && j <= |s| - k
    ensures WordEndFrom(s, k + j) == k + WordEndFrom(s[k..], j)
    decreases |s| - k - j
  {
    if j < |s| - k {
      assert s[k..][j] == s[k + j];
      if !IsSpace(s[k + j]) {
        WordEndFromSuffix(s, k, j + 1);
      }
    }
  }

  /** Splitting inside the suffix `s[k..]` is splitting that suffix. */
  lemma {:induction false} SplitFromSuffix(s: string, k: nat, j: nat)
    requires k <= |s| && j <= |s| - k
    ensures SplitFrom(s, k + j) == SplitFrom(s[k..], j)
    decreases |s| - k - j
  {
    if j < |s| - k {
      assert s[k..][j] == s[k + j];
      if IsSpace(s[k + j]) {
        SplitFromSuffix(s, k, j + 1);
      } else {
        SuffixWordStep(s, k, j);
        SplitFromWord(s, k + j);
        SplitFromWord(s[k..], j);
        SplitFromSuffix(s, k, WordEndFrom(s[k..], j));
      }
    }
  }

  /** A word of the suffix `s[k..]` is the same word of `s`. */
  lemma SuffixWordStep(s: string, k: nat, j: nat)
    requires k <= |s| && j < |s| - k && !IsSpace(s[k + j])
    ensures s[k..][j] == s[k + j]
    ensures WordEndFrom(s, k + j) == k + WordEndFrom(s[k..], j)
    ensures s[k + j..k + WordEndFrom(s[k..], j)] == s[k..][j..WordEndFrom(s[k..], j)]
  {
    WordEndFromSuffix(s, k, j);
  }

  /** A run inside `a` ends before a whitespace character that follows `a`. */
  lemma {:induction false} WordEndFromPrefix(a: string, b: string, i: nat)
    requires i <= |a| && b != [] && IsSpace(b[0])
    ensures WordEndFrom(a + b, i) == WordEndFrom(a, i)
    decreases |a| - i
  {
    if i < |a| {
      assert (a + b)[i] == a[i];
      if !IsSpace(a[i]) {
        WordEndFromPrefix(a, b, i + 1);
      }
    } else {
      assert (a + b)[i] == b[0];
    }
  }

  lemma {:induction false} SplitFromAppend(a: string, c: char, b: string, i: nat)
    requires IsSpace(c) && i <= |a|
    ensures SplitFrom(a + [c] + b, i) == SplitFrom(a, i) + Split(b)
    decreases |a| - i
  {
    var x := a + [c] + b;
    if i == |a| {
      SplitAfterSeparator(a, c, b);
    } else if IsSpace(a[i]) {
      assert x[i] == a[i];
      SplitFromAppend(a, c, b, i + 1);
    } else {
      AppendWordStep(a, c, b, i);
      SplitFromWord(x, i);
      SplitFromWord(a, i);
      SplitFromAppend(a, c, b, WordEndFrom(a, i));
    }
  }

  /** Right after the separator, the split is that of `b`. */
  lemma SplitAfterSeparator(a: string, c: char, b: string)
    requires IsSpace(c)
    ensures SplitFrom(a + [c] + b, |a|) == Split(b)
  {
    var x := a + [c] + b;
    assert x[|a|] == c;
    assert x[|a| + 1..] == b;
    SplitFromSuffix(x, |a| + 1, 0);
  }

  /** A word of `a` is the same word of `a + [c] + b`. */
  lemma AppendWordStep(a: string, c: char, b: string, i: nat)
    requires IsSpace(c) && i < |a| && !IsSpace(a[i])
    ensures (a + [c] + b)[i] == a[i]
    ensures WordEndFrom(a + [c] + b, i) == WordEndFrom(a, i)
    ensures (a + [c] + b)[i..WordEndFrom(a, i)] == a[i..WordEndFrom(a, i)]
  {
    assert a + [c] + b == a + ([c] + b);
    WordEndFromPrefix(a, [c] + b, i);
  }

  /** Splitting distributes over a whitespace character: together with
      SplitWord this determines `Split` on every string. */
  lemma SplitAppend(a: string, c: char, b: string)
    requires IsSpace(c)
    ensures Split(a + [c] + b) == Split(a) + Split(b)
  {
    SplitFromAppend(a, c, b, 0);
  }

  /** A single word splits into itself. */
  lemma SplitWord(w: string)
    requires IsWord(w)
    ensures Split(w) == [w]
  {
    WordEndFromSpec(w, 0);
    assert WordEndFrom(w, 0) == |w|;
    assert SplitFrom(w, 0) == [w[0..|w|]] + SplitFrom(w, |w|);
    assert w[0..|w|] == w;
  }

  /** `w` ends `s` as a whole word: it starts at `i`, is followed only by
      whitespace, and is preceded by nothing or by whitespace. */
  ghost predicate WordEndsAt(s: string, w: string, i: int)
  {
    0 <= i && i + |w| <= |s| && s[i..i + |w|] == w && SpacesFrom(s, i + |w|)
    && (i == 0 || IsSpace(s[i - 1]))
  }

  /** The last word `w` of a split from a word boundary ends the string as a
      whole word, at `p`. */
  lemma {:induction false} LastWordFrom(s: string, i: nat) returns (p: nat, w: string)
    requires i <= |s| && SplitFrom(s, i) != []
    requires i == 0 || IsSpace(s[i - 1])
    ensures w == SplitFrom(s, i)[|SplitFrom(s, i)| - 1]
    ensures i <= p && WordEndsAt(s, w, p)
    decreases |s| - i
  {
    if IsSpace(s[i]) {
      p, w := LastWordFrom(s, i + 1);
    } else {
      var e := WordEndFrom(s, i);
      SplitFromWord(s, i);
      if SplitFrom(s, e) == [] {
        OnlyWordEnds(s, i);
        p, w := i, s[i..e];
      } else {
        p, w := LastWordFrom(s, e + 1);
      }
    }
  }

  /** A split at a word: the word, then the split after it, which starts past
      the whitespace that ends the word. */
  lemma SplitFromWord(s: string, i: nat)
    requires i < |s| && !IsSpace(s[i])
    ensures SplitFrom(s, i) == [s[i..WordEndFrom(s, i)]] + SplitFrom(s, WordEndFrom(s, i))
    ensures SplitFrom(s, WordEndFrom(s, i)) != [] ==>
      WordEndFrom(s, i) < |s| && IsSpace(s[WordEndFrom(s, i)])
      && SplitFrom(s, WordEndFrom(s, i) + 1) == SplitFrom(s, WordEndFrom(s, i))
  {
    WordEndFromSpec(s, i);
  }

  /** A word followed only by whitespace ends the string. */
  lemma OnlyWordEnds(s: string, i: nat)
    requires i < |s| && !IsSpace(s[i]) && SplitFrom(s, WordEndFrom(s, i)) == []
    requires i == 0 || IsSpace(s[i - 1])
    ensures WordEndsAt(s, s[i..WordEndFrom(s, i)], i)
  {
    SplitEmptyIff(s, WordEndFrom(s, i));
  }

  /** What the dependency does: returns (the request proceeds), raises 401 with
      one of two details, or crashes on `split()[-1]` of an empty word list. */
  datatype AuthResult = Authorized | Unauthorized(status: int, detail: string) | IndexError

  const HttpUnauthorized: int := 401
  const MissingTokenDetail: string := "Unauthorized. Expected bearer token."
  const InvalidTokenDetail: string := "Unauthorized. Provided bearer token invalid."

  /** `get_bearer_token` on the credentials string, with the configured
      secret `API_BEARER_TOKEN` as a parameter. */
  function GetBearerToken(credentials: string, expectedToken: string): (r: AuthResult)
    ensures credentials == [] ==> r == Unauthorized(HttpUnauthorized, MissingTokenDetail)
    ensures credentials != [] && AllSpace(credentials) ==> r == IndexError
    ensures !AllSpace(credentials) ==> r.Authorized? || r == Unauthorized(HttpUnauthorized, InvalidTokenDetail)
  {
    if credentials == [] then Unauthorized(HttpUnauthorized, MissingTokenDetail)
    else
      SplitEmptyIff(credentials, 0);
      var words := Split(credentials);
      if words == [] then IndexError
      else
        var token := words[|words| - 1];
        if expectedToken != token then Unauthorized(HttpUnauthorized, InvalidTokenDetail)
        else Authorized
  }

  /** A word followed by whitespace splits into that word alone. */
  lemma {:induction false} SplitWordThenSpaces(w: string, post: string)
    requires IsWord(w) && AllSpace(post)
    ensures Split(w + post) == [w]
  {
    SplitWord(w);
    if post == [] {
      assert w + post == w;
    } else {
      SplitAppend(w, post[0], post[1..]);
      assert w + post == w + [post[0]] + post[1..];
      SplitEmptyIff(post[1..], 0);
    }
  }

  /** A secret that ends the credentials as a whole word is the token compared. */
  lemma {:induction false} EndingWordIsToken(credentials: string, w: string, i: int)
    requires IsWord(w) && WordEndsAt(credentials, w, i)
    ensures Split(credentials) != [] && Split(credentials)[|Split(credentials)| - 1] == w
  {
    var tail := credentials[i..];
    assert tail == w + credentials[i + |w|..];
    SplitWordThenSpaces(w, credentials[i + |w|..]);
    if i > 0 {
      var a := credentials[..i - 1];
      SplitAppend(a, credentials[i - 1], tail);
      assert credentials == a + [credentials[i - 1]] + tail;
    } else {
      assert credentials == tail;
    }
  }

  /** The request is accepted exactly when the credentials end with the secret as
      a whole word, followed by nothing but whitespace. */
  lemma AuthorizedIff(credentials: string, expectedToken: string)
    ensures GetBearerToken(credentials, expectedToken) == Authorized <==>
      IsWord(expectedToken) && exists i :: WordEndsAt(credentials, expectedToken, i)
  {
    if GetBearerToken(credentials, expectedToken) == Authorized {
      SplitWords(credentials, 0);
      var i, w := LastWordFrom(credentials, 0);
    }
    if IsWord(expectedToken) && exists i :: WordEndsAt(credentials, expectedToken, i) {
      var i :| WordEndsAt(credentials, expectedToken, i);
      EndingWordIsToken(credentials, expectedToken, i);
    }
  }

  /** Words before the last are ignored: "Bearer abc" is treated like "abc". */
  lemma LeadingWordsIgnored(prefix: string, sep: char, credentials: string, expectedToken: string)
    requires IsSpace(sep) && !AllSpace(credentials)
    ensures GetBearerToken(prefix + [sep] + credentials, expectedToken)
         == GetBearerToken(credentials, expectedToken)
  {
    SplitAppend(prefix, sep, credentials);
    SplitEmptyIff(credentials, 0);
  }

  /** A secret that is empty or contains whitespace is never matched. */
  lemma NonWordSecretNeverMatches(credentials: string, expectedToken: string)
    requires !IsWord(expectedToken)
    ensures GetBearerToken(credentials, expectedToken) != Authorized
  {
    SplitWords(credentials, 0);
  }
}
