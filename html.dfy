/**
 * `strip_html`: deletes every match of the regular expression `<[^>]+>`,
 * scanning left to right as `re.sub` does, then strips the ends.
 */
module Html {
  import opened Wrappers
  import opened Text

  /** A span `re.sub(r"<[^>]+>", ...)` deletes: `<`, at least one
      character other than `>`, then `>`. */
  predicate IsTag(t: string) {
    |t| >= 3 && t[0] == '<' && t[|t| - 1] == '>' && '>' !in t[1..|t| - 1]
  }

  /** No `<` in `s` starts a match of `<[^>]+>`: each `<` is followed at once by `>`,
      or by no `>` at all. */
  predicate TagFree(s: string)
    decreases |s|
  {
    s == [] ||
    ((s[0] == '<' ==> (|s| > 1 && s[1] == '>') || '>' !in s[1..]) && TagFree(s[1..]))
  }

  /** The scanner behind `re.sub(r"<[^>]+>", "", s)`. At a `<` it looks for the first
      `>` after it; when there is one and something lies between, the whole span goes;
      otherwise the `<` stays and the scan moves on by one character. */
  function RemoveTags(s: string): (r: string)
    ensures |r| <= |s|
    ensures multiset(r) <= multiset(s)
    ensures TagFree(r)
    decreases |s|
  {
    if s == [] then []
    else if s[0] == '<' && 0 < IndexOf(s[1..], '>') < |s| - 1 then
      var k := IndexOf(s[1..], '>');
      var r := RemoveTags(s[k + 2..]);
      assert multiset(s) == multiset(s[..k + 2]) + multiset(s[k + 2..]) by {
        assert s == s[..k + 2] + s[k + 2..];
      }
      r
    else
      var rest := RemoveTags(s[1..]);
      assert s == [s[0]] + s[1..];
      assert s[0] == '<' ==> (|s| > 1 && s[1] == '>') || '>' !in s[1..];
      assert '>' !in s[1..] ==> '>' !in rest by {
        if '>' in rest {
          assert '>' in multiset(rest);
        }
      }
      [s[0]] + rest
  }

  /** `strip_html(html)`: the text with every tag span removed, then stripped.
      `html or ""` maps a missing value to the empty text. */
  function StripHtml(html: Option<string>): (r: string)
    ensures Trimmed(r)
    ensures TagFree(r)
    ensures |r| <= |html.GetOr([])|
  {
    var t := RemoveTags(html.GetOr([]));
    TagFreeSuffix(t, |t| - |TrimLeft(t)|);
    TagFreeTrimRight(TrimLeft(t));
    Strip(t)
  }

  lemma {:induction false} TagFreeSuffix(s: string, k: nat)
    requires TagFree(s) && k <= |s|
    ensures TagFree(s[k..])
    decreases k
  {
    if k > 0 {
      TagFreeSuffix(s[1..], k - 1);
      assert s[1..][k - 1..] == s[k..];
    }
  }

  /** Dropping trailing whitespace cannot create a tag: a `>` that closes
      nothing is not whitespace, so it survives the cut. */
  lemma {:induction false} TagFreeTrimRight(s: string)
    requires TagFree(s)
    ensures TagFree(TrimRight(s))
    decreases |s|
  {
    var r := TrimRight(s);
    if r != [] {
      TagFreeTrimRight(s[1..]);
      assert TrimRight(s[1..]) == r[1..] by {
        TrimRightTail(s);
      }
      if r[0] == '<' {
        if |s| > 1 && s[1] == '>' {
          assert |r| > 1;
        } else {
          assert r[1..] == s[1..|r|];
        }
      }
    }
  }

  lemma {:induction false} TrimRightTail(s: string)
    requires TrimRight(s) != []
    ensures TrimRight(s[1..]) == TrimRight(s)[1..]
    decreases |s|
  {
    if IsSpace(s[|s| - 1]) {
      TrimRightTail(s[..|s| - 1]);
      assert s[..|s| - 1][1..] == s[1..][..|s[1..]| - 1];
    }
  }

  /** A complete tag at the front disappears. */
  lemma RemovesTag(t: string, rest: string)
    requires IsTag(t)
    ensures RemoveTags(t + rest) == RemoveTags(rest)
  {
    var s := t + rest;
    var k := IndexOf(s[1..], '>');
    assert s[1..][|t| - 2] == '>';
    assert forall i :: 0 <= i < |t| - 2 ==> s[1..][i] == t[1..|t| - 1][i];
    assert k == |t| - 2;
    assert s[k + 2..] == rest;
  }

  /** A character other than `<` is kept. */
  lemma KeepsText(c: char, rest: string)
    requires c != '<'
    ensures RemoveTags([c] + rest) == [c] + RemoveTags(rest)
  {
    assert ([c] + rest)[1..] == rest;
  }

  /** A bare `<>` is kept. */
  lemma KeepsEmptyBrackets(rest: string)
    ensures RemoveTags("<>" + rest) == "<>" + RemoveTags(rest)
  {
    var s := "<>" + rest;
    assert s[1..] == ['>'] + rest;
    assert IndexOf(s[1..], '>') == 0;
    KeepsText('>', rest);
  }

  /** A `<` with no `>` anywhere after it is kept. */
  lemma KeepsUnclosed(rest: string)
    requires '>' !in rest
    ensures RemoveTags("<" + rest) == "<" + RemoveTags(rest)
  {
    var s := "<" + rest;
    assert s[1..] == rest;
  }

  /** Text with no tag comes back unchanged from the scanner ... */
  lemma {:induction false} TagFreeUnchanged(s: string)
    requires TagFree(s)
    ensures RemoveTags(s) == s
    decreases |s|
  {
    if s != [] {
      TagFreeUnchanged(s[1..]);
      if s[0] == '<' {
        var k := IndexOf(s[1..], '>');
        assert !(0 < k < |s| - 1);
      }
    }
  }

  /** ... so removing tags twice is removing them once, */
  lemma RemoveTagsIdempotent(s: string)
    ensures RemoveTags(RemoveTags(s)) == RemoveTags(s)
  {
    TagFreeUnchanged(RemoveTags(s));
  }

  /** and text with no `<` in it is only stripped. */
  lemma {:induction false} PlainTextOnlyStripped(s: string)
    requires '<' !in s
    ensures StripHtml(Some(s)) == Strip(s)
    decreases |s|
  {
    NoOpenIsTagFree(s);
    TagFreeUnchanged(s);
  }

  lemma {:induction false} NoOpenIsTagFree(s: string)
    requires '<' !in s
    ensures TagFree(s)
    decreases |s|
  {
    if s != [] {
      NoOpenIsTagFree(s[1..]);
    }
  }
}
