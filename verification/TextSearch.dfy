/** Characters, white space and searching, as the scanners of the repository use them. */
module TextSearch {

  datatype Option<+T> = None | Some(value: T)

  /** The characters after which `^` matches in a multi-line regular expression. */
  predicate IsLineTerminator(c: char) {
    c == '\n' || c == '\r' || c == '\U{2028}' || c == '\U{2029}'
  }

  /** The characters matched by `\s`. */
  predicate IsSpace(c: char) {
    || c == ' ' || '\t' <= c <= '\r' || c == '\U{A0}' || c == '\U{1680}'
    || '\U{2000}' <= c <= '\U{200A}' || c == '\U{2028}' || c == '\U{2029}'
    || c == '\U{202F}' || c == '\U{205F}' || c == '\U{3000}' || c == '\U{FEFF}'
  }

  predicate IsQuote(c: char) {
    c == '"' || c == '\'' || c == '`'
  }

  function IndexOf(s: string, c: char, from: nat): (p: int)
    requires from <= |s|
    ensures p == -1 || (from <= p < |s| && s[p] == c)
    decreases |s| - from
  {
    if from == |s| then -1 else if s[from] == c then from else IndexOf(s, c, from + 1)
  }

  /** `IndexOf` is the first position of the character. */
  lemma {:induction false} IndexOfIs(s: string, c: char, from: nat, p: nat)
    requires from <= p < |s| && s[p] == c
    requires forall q :: from <= q < p ==> s[q] != c
    ensures IndexOf(s, c, from) == p
    decreases p - from
  {
    if from < p {
      IndexOfIs(s, c, from + 1, p);
    }
  }

  lemma {:induction false} IndexOfIsFirst(s: string, c: char, from: nat)
    requires from <= |s|
    ensures var p := IndexOf(s, c, from);
            forall q :: from <= q < (if p == -1 then |s| else p) ==> s[q] != c
    decreases |s| - from
  {
    if from < |s| && s[from] != c {
      IndexOfIsFirst(s, c, from + 1);
    }
  }

  /** The end of the run of white space at `from`, looking no further than `limit`. */
  function SkipSpace(s: string, from: nat, limit: nat): (p: nat)
    requires from <= limit <= |s|
    ensures from <= p <= limit
    decreases limit - from
  {
    if from < limit && IsSpace(s[from]) then SkipSpace(s, from + 1, limit) else from
  }

  lemma {:induction false} SkipSpaceIs(s: string, from: nat, limit: nat, p: nat)
    requires from <= p <= limit <= |s|
    requires forall q :: from <= q < p ==> IsSpace(s[q])
    requires p < limit ==> !IsSpace(s[p])
    ensures SkipSpace(s, from, limit) == p
    decreases p - from
  {
    if from < p {
      SkipSpaceIs(s, from + 1, limit, p);
    }
  }

  lemma {:induction false} SkippedIsSpace(s: string, from: nat, limit: nat)
    requires from <= limit <= |s|
    ensures var p := SkipSpace(s, from, limit);
            (forall q :: from <= q < p ==> IsSpace(s[q])) && (p < limit ==> !IsSpace(s[p]))
    decreases limit - from
  {
    if from < limit && IsSpace(s[from]) {
      SkippedIsSpace(s, from + 1, limit);
    }
  }

  function TrimEnd(s: string): string {
    if s != "" && IsSpace(s[|s| - 1]) then TrimEnd(s[..|s| - 1]) else s
  }

  function Trim(s: string): string {
    TrimEnd(s[SkipSpace(s, 0, |s|)..])
  }

  lemma {:induction false} TrimEndEmptyIff(s: string)
    ensures TrimEnd(s) == "" <==> forall c :: c in s ==> IsSpace(c)
  {
    if s != "" && IsSpace(s[|s| - 1]) {
      TrimEndEmptyIff(s[..|s| - 1]);
      assert s == s[..|s| - 1] + [s[|s| - 1]];
    } else if s != "" {
      assert s[|s| - 1] in s;
    }
  }

  /** Trimming leaves nothing exactly of white space. */
  lemma TrimmedEmptyIff(s: string)
    ensures Trim(s) == "" <==> forall c :: c in s ==> IsSpace(c)
  {
    var p := SkipSpace(s, 0, |s|);
    SkippedIsSpace(s, 0, |s|);
    TrimEndEmptyIff(s[p..]);
    assert s == s[..p] + s[p..];
    assert forall c :: c in s[..p] ==> IsSpace(c);
  }

  function RemoveAt<T>(s: seq<T>, k: nat): seq<T>
    requires k < |s|
  {
    s[..k] + s[k + 1..]
  }

  lemma SliceOfFront<T>(a: seq<T>, b: seq<T>, i: nat, j: nat)
    requires i <= j <= |a|
    ensures (a + b)[i..j] == a[i..j]
  {
  }

  lemma SliceOfBack<T>(a: seq<T>, b: seq<T>, i: nat, j: nat)
    requires |a| <= i <= j <= |a| + |b|
    ensures (a + b)[i..j] == b[i - |a|..j - |a|]
  {
  }

  lemma Associative<T>(a: seq<T>, b: seq<T>, c: seq<T>)
    ensures a + b + c == a + (b + c)
  {
  }
}
