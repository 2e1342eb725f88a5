/**
 * The description clean-up `re.sub('<[^<]+?>', '', text)`: scanning left to
 * right, wherever a `<` is followed by at least one character other than `<`
 * and then a `>`, the shortest such span is removed and the scan resumes after
 * it; every other character is kept.
 */
module TagStrip {
  import opened Wrappers

  /**
   * The pattern can match `s[..j + 1]`: `s` opens with `<`, `s[j]` is `>`, at
   * least one character lies between them and none of those is `<`.
   */
  predicate TagSpan(s: string, j: int) {
    && 2 <= j < |s|
    && s[0] == '<'
    && s[j] == '>'
    && forall k :: 1 <= k < j ==> s[k] != '<'
  }

  /** Some match of the pattern begins at index `p` of `s`. */
  ghost predicate TagStartsAt(s: string, p: int) {
    0 <= p < |s| && exists j :: TagSpan(s[p..], j)
  }

  /** The pattern matches somewhere in `s`. */
  ghost predicate HasTag(s: string) {
    exists p :: TagStartsAt(s, p)
  }

  /** Where the match at the start of `s` closes, if there is one: the lazy `+?` stops at the first `>` that can close it. */
  function TagEnd(s: string): (r: Option<nat>)
    ensures r.Some? <==> exists j :: TagSpan(s, j)
    ensures r.Some? ==> TagSpan(s, r.value) && forall j :: TagSpan(s, j) ==> r.value <= j
  {
    if |s| < 3 || s[0] != '<' || s[1] == '<' then None else CloseFrom(s, 2)
  }

  /** The search for the closing `>` of a match opened at index 0, continued at index `k`. */
  function CloseFrom(s: string, k: nat): (r: Option<nat>)
    requires 2 <= k <= |s| && s[0] == '<'
    requires forall i :: 1 <= i < k ==> s[i] != '<'
    requires forall i :: 2 <= i < k ==> s[i] != '>'
    ensures r.Some? <==> exists j :: TagSpan(s, j)
    ensures r.Some? ==> TagSpan(s, r.value) && forall j :: TagSpan(s, j) ==> r.value <= j
    decreases |s| - k
  {
    if k == |s| || s[k] == '<' then None
    else if s[k] == '>' then
      assert TagSpan(s, k);
      Some(k)
    else CloseFrom(s, k + 1)
  }

  /** The substitution itself; it only ever deletes characters. */
  function StripTags(s: string): (r: string)
    ensures |r| <= |s|
    decreases |s|
  {
    if s == [] then []
    else match TagEnd(s)
      case Some(j) => StripTags(s[j + 1..])
      case None => [s[0]] + StripTags(s[1..])
  }

  /** Every character of the result comes from the input: the substitution only deletes. */
  lemma {:induction false} StripOnlyDeletes(s: string)
    ensures multiset(StripTags(s)) <= multiset(s)
    decreases |s|
  {
    if s != [] {
      match TagEnd(s)
      case Some(j) =>
        assert s == s[..j + 1] + s[j + 1..];
        StripOnlyDeletes(s[j + 1..]);
      case None =>
        assert s == [s[0]] + s[1..];
        StripOnlyDeletes(s[1..]);
    }
  }

  /** A match inside `s[1..]` is a match inside `s`, one place further on. */
  lemma TagInTail(s: string, p: int)
    requires s != [] && TagStartsAt(s[1..], p)
    ensures TagStartsAt(s, p + 1)
  {
    assert s[1..][p..] == s[p + 1..];
  }

  lemma {:induction false} NoTagKeepsText(s: string)
    requires !HasTag(s)
    ensures StripTags(s) == s
    decreases |s|
  {
    if s != [] {
      assert s[0..] == s;
      assert !TagStartsAt(s, 0);
      forall p | TagStartsAt(s[1..], p)
        ensures false
      {
        TagInTail(s, p);
      }
      NoTagKeepsText(s[1..]);
    }
  }

  lemma {:induction false} TagShortensText(s: string)
    requires HasTag(s)
    ensures |StripTags(s)| < |s|
    decreases |s|
  {
    var p :| TagStartsAt(s, p);
    match TagEnd(s)
    case Some(j) =>
    case None =>
      assert s[0..] == s;
      assert p != 0;
      assert s[1..][p - 1..] == s[p..];
      assert TagStartsAt(s[1..], p - 1);
      TagShortensText(s[1..]);
  }

  /** The substitution leaves `s` unchanged exactly when the pattern matches nowhere in it. */
  lemma StripIsIdentityIffNoTag(s: string)
    ensures StripTags(s) == s <==> !HasTag(s)
  {
    if HasTag(s) {
      TagShortensText(s);
    } else {
      NoTagKeepsText(s);
    }
  }

  /** A tag: `<`, its body, `>`. */
  function Tag(body: string): string {
    "<" + body + ">"
  }

  /** A tag whose body holds no `<`, and no `>` after its first character, is matched exactly. */
  lemma TagMatchesWhole(body: string, rest: string)
    requires |body| > 0 && forall i :: 0 <= i < |body| ==> body[i] != '<'
    requires forall i :: 1 <= i < |body| ==> body[i] != '>'
    ensures TagEnd(Tag(body) + rest) == Some(|body| + 1)
  {
    var s := Tag(body) + rest;
    assert forall k :: 1 <= k <= |body| ==> s[k] == body[k - 1];
    assert TagSpan(s, |body| + 1);
  }

  /** Such a tag is removed and the substitution carries on after it. */
  lemma StripLeadingTag(body: string, rest: string)
    requires |body| > 0 && forall i :: 0 <= i < |body| ==> body[i] != '<'
    requires forall i :: 1 <= i < |body| ==> body[i] != '>'
    ensures StripTags(Tag(body) + rest) == StripTags(rest)
  {
    TagMatchesWhole(body, rest);
    assert (Tag(body) + rest)[|body| + 2..] == rest;
  }

  /** A first character other than `<` is kept. */
  lemma StripKeepsHead(s: string)
    requires s != [] && s[0] != '<'
    ensures StripTags(s) == [s[0]] + StripTags(s[1..])
  {
    assert TagEnd(s).None?;
  }

  /**
   * Text free of `<`, then one tag, then anything: the text is kept, the tag
   * goes, and the substitution carries on with the rest. The tag body is not
   * empty, holds no `<`, and holds no `>` after its first character, which is
   * what makes the `>` shown here the one the lazy match stops at.
   */
  lemma {:induction false} StripTextThenTag(text: string, body: string, rest: string)
    requires forall i :: 0 <= i < |text| ==> text[i] != '<'
    requires |body| > 0 && forall i :: 0 <= i < |body| ==> body[i] != '<'
    requires forall i :: 1 <= i < |body| ==> body[i] != '>'
    ensures StripTags(text + (Tag(body) + rest)) == text + StripTags(rest)
    decreases |text|
  {
    if text == [] {
      assert text + (Tag(body) + rest) == Tag(body) + rest;
      StripLeadingTag(body, rest);
    } else {
      var s := text + (Tag(body) + rest);
      StripKeepsHead(s);
      assert s[1..] == text[1..] + (Tag(body) + rest);
      StripTextThenTag(text[1..], body, rest);
    }
  }

  /** Text with no `<` in it is left as it is. */
  lemma NoOpenKeepsText(s: string)
    requires forall i :: 0 <= i < |s| ==> s[i] != '<'
    ensures StripTags(s) == s
  {
    assert !HasTag(s);
    NoTagKeepsText(s);
  }

  /** An element `<tag>inner</tag>` whose text holds no `<` is reduced to that text. */
  lemma StripsElement(tag: string, inner: string)
    requires |tag| > 0 && forall i :: 0 <= i < |tag| ==> tag[i] != '<' && tag[i] != '>'
    requires forall i :: 0 <= i < |inner| ==> inner[i] != '<'
    ensures StripTags(Tag(tag) + (inner + Tag("/" + tag))) == inner
  {
    var close := "/" + tag;
    ClosingBody(tag);
    StripTextThenTag(inner, close, []);
    assert Tag(close) + [] == Tag(close);
    assert StripTags([]) == [];
    StripLeadingTag(tag, inner + Tag(close));
  }

  lemma ClosingBody(tag: string)
    requires forall i :: 0 <= i < |tag| ==> tag[i] != '<' && tag[i] != '>'
    ensures forall i :: 0 <= i < |"/" + tag| ==> ("/" + tag)[i] != '<'
    ensures forall i :: 1 <= i < |"/" + tag| ==> ("/" + tag)[i] != '>'
  {
    assert forall i :: 1 <= i < |"/" + tag| ==> ("/" + tag)[i] == tag[i - 1];
  }
}
