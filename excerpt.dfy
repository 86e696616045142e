/**
 * The plain-text excerpt shown on the listing pages: HTML tags are stripped
 * with the pattern `<[^>]+>` (replace all), and text longer than the limit is
 * cut and given a trailing "...".
 */
module Excerpt {
  import opened Wrappers

  /** The index of the first '>' at or after `i`, or `|s|` if there is none. */
  function NextClose(s: string, i: nat): (k: nat)
    requires i <= |s|
    ensures i <= k <= |s|
    ensures forall m :: i <= m < k ==> s[m] != '>'
    ensures k < |s| ==> s[k] == '>'
    decreases |s| - i
  {
    if i == |s| || s[i] == '>' then i else NextClose(s, i + 1)
  }

  /** Where a tag that starts at the head of `s` ends: the pattern needs '<',
      at least one character other than '>', and then '>'. Because the middle
      part cannot contain '>', the match (if any) ends at the first '>'. */
  function TagEnd(s: string): Option<nat>
  {
    if s == [] || s[0] != '<' then None
    else
      var k := NextClose(s, 1);
      if 2 <= k < |s| then Some(k) else None
  }

  /** No tag starts anywhere in `s`. */
  predicate NoTag(s: string)
  {
    forall i :: 0 <= i < |s| ==> TagEnd(s[i..]).None?
  }

  /** `s.replace(/<[^>]+>/g, "")`: scan left to right, dropping each match. */
  function StripTags(s: string): (r: string)
    ensures |r| <= |s|
    decreases |s|
  {
    if s == [] then []
    else
      match TagEnd(s)
      case Some(k) => StripTags(s[k + 1..])
      case None => [s[0]] + StripTags(s[1..])
  }

  /** Stripping never introduces a '>' the input lacks after position 0. */
  lemma {:induction false} StripKeepsNoClose(s: string)
    requires forall m :: 0 <= m < |s| ==> s[m] != '>'
    ensures forall m :: 0 <= m < |StripTags(s)| ==> StripTags(s)[m] != '>'
    decreases |s|
  {
    if s != [] {
      assert TagEnd(s).None? by {
        if s[0] == '<' { assert NextClose(s, 1) == |s|; }
      }
      StripKeepsNoClose(s[1..]);
    }
  }

  /** A text that starts with '>' keeps it in front after stripping. */
  lemma StripKeepsLeadingClose(s: string)
    requires s != [] && s[0] == '>'
    ensures StripTags(s) != [] && StripTags(s)[0] == '>'
  {
  }

  /** A '<' followed by `rest` starts no tag when `rest` has no '>' at all or
      starts with '>'. */
  lemma OpenWithoutTag(rest: string)
    requires (forall m :: 0 <= m < |rest| ==> rest[m] != '>') || (rest != [] && rest[0] == '>')
    ensures TagEnd(['<'] + rest).None?
  {
    var t := ['<'] + rest;
    if rest != [] && rest[0] == '>' {
      assert t[1] == '>';
      assert NextClose(t, 1) == 1;
    } else {
      assert forall m :: 1 <= m < |t| ==> t[m] == rest[m - 1];
      assert NextClose(t, 1) == |t|;
    }
  }

  /** Prepending a character that starts no tag keeps a text tag-free. */
  lemma ConsNoTag(c: char, r: string)
    requires NoTag(r) && TagEnd([c] + r).None?
    ensures NoTag([c] + r)
  {
    var t := [c] + r;
    forall i | 0 <= i < |t| ensures TagEnd(t[i..]).None? {
      if i > 0 {
        assert t[i..] == r[i - 1..];
      }
    }
  }

  /** The stripped text contains no tag. */
  lemma {:induction false} StripTagsLeavesNoTag(s: string)
    ensures NoTag(StripTags(s))
    decreases |s|
  {
    if s != [] {
      match TagEnd(s)
      case Some(k) =>
        StripTagsLeavesNoTag(s[k + 1..]);
      case None =>
        var rest := StripTags(s[1..]);
        StripTagsLeavesNoTag(s[1..]);
        if s[0] == '<' {
          var k := NextClose(s, 1);
          if k == |s| {
            assert forall m :: 0 <= m < |s[1..]| ==> s[1..][m] != '>';
            StripKeepsNoClose(s[1..]);
          } else {
            assert k == 1;
            StripKeepsLeadingClose(s[1..]);
          }
          OpenWithoutTag(rest);
        }
        ConsNoTag(s[0], rest);
    }
  }

  /** A text without tags is left as it is, so stripping is idempotent. */
  lemma {:induction false} StripTagsFixesNoTag(s: string)
    requires NoTag(s)
    ensures StripTags(s) == s
    decreases |s|
  {
    if s != [] {
      assert TagEnd(s[0..]).None?;
      assert s[0..] == s;
      assert NoTag(s[1..]) by {
        forall i | 0 <= i < |s[1..]| ensures TagEnd(s[1..][i..]).None? {
          assert s[1..][i..] == s[i + 1..];
        }
      }
      StripTagsFixesNoTag(s[1..]);
    }
  }

  lemma StripTagsIdempotent(s: string)
    ensures StripTags(StripTags(s)) == StripTags(s)
  {
    StripTagsLeavesNoTag(s);
    StripTagsFixesNoTag(StripTags(s));
  }

  /** A text with no '<' has no tag. */
  lemma NoOpenNoTag(s: string)
    requires forall m :: 0 <= m < |s| ==> s[m] != '<'
    ensures NoTag(s)
  {
    forall i | 0 <= i < |s| ensures TagEnd(s[i..]).None? {
      assert s[i..][0] == s[i];
    }
  }

  /** The limits the pages use: 100 on the blog and recipe listings, 150 on
      the home page. */
  const ListingExcerptLength: nat := 100
  const HomeExcerptLength: nat := 150

  /** `createExcerpt(html, maxLength)`. */
  function CreateExcerpt(html: string, maxLength: nat): (r: string)
    ensures html == "" ==> r == ""
    ensures html != "" && |StripTags(html)| <= maxLength ==> r == StripTags(html)
    ensures html != "" && |StripTags(html)| > maxLength ==>
      r == StripTags(html)[..maxLength] + "..." && |r| == maxLength + 3
    ensures |r| <= maxLength + 3
  {
    if html == "" then ""
    else
      var plainText := StripTags(html);
      if |plainText| <= maxLength then plainText
      else plainText[..maxLength] + "..."
  }

  /** `NextClose` only looks as far as the first '>'. */
  lemma {:induction false} NextCloseAgrees(t: string, u: string, i: nat)
    requires i <= |u| <= |t| && u == t[..|u|]
    requires NextClose(u, i) < |u|
    ensures NextClose(t, i) == NextClose(u, i)
    decreases |u| - i
  {
    if u[i] != '>' {
      NextCloseAgrees(t, u, i + 1);
    }
  }

  /** A tag at the head of a prefix is the same tag in the whole text. */
  lemma TagEndOfPrefix(t: string, u: string)
    requires |u| <= |t| && u == t[..|u|]
    ensures TagEnd(u).Some? ==> TagEnd(t) == TagEnd(u)
  {
    if TagEnd(u).Some? {
      NextCloseAgrees(t, u, 1);
    }
  }

  /** Text without '>' appended behind cannot complete a tag. */
  lemma TagEndOfExtension(u: string, q: string)
    requires forall m :: 0 <= m < |q| ==> q[m] != '>'
    ensures TagEnd(u + q).Some? ==> TagEnd(u).Some?
  {
    var t := u + q;
    if TagEnd(t).Some? {
      var k := NextClose(t, 1);
      assert u[k] == '>';
      assert u == t[..|u|];
      NextCloseAgrees(t, u, 1);
    }
  }

  /** A prefix of a tag-free text is tag-free. */
  lemma NoTagPrefix(s: string, n: nat)
    requires NoTag(s) && n <= |s|
    ensures NoTag(s[..n])
  {
    forall i | 0 <= i < n ensures TagEnd(s[..n][i..]).None? {
      assert TagEnd(s[i..]).None?;
      TagEndOfPrefix(s[i..], s[..n][i..]);
    }
  }

  /** Appending text with neither '<' nor '>' keeps a text tag-free. */
  lemma NoTagAppend(p: string, q: string)
    requires NoTag(p)
    requires forall m :: 0 <= m < |q| ==> q[m] != '>' && q[m] != '<'
    ensures NoTag(p + q)
  {
    var s := p + q;
    forall i | 0 <= i < |s| ensures TagEnd(s[i..]).None? {
      if i < |p| {
        assert s[i..] == p[i..] + q;
        assert TagEnd(p[i..]).None?;
        TagEndOfExtension(p[i..], q);
      } else {
        assert s[i..][0] == q[i - |p|];
      }
    }
  }

  /** The excerpt shows no tag: the kept text is tag-free and "..." adds none. */
  lemma ExcerptHasNoTag(html: string, maxLength: nat)
    ensures NoTag(CreateExcerpt(html, maxLength))
  {
    var p := StripTags(html);
    StripTagsLeavesNoTag(html);
    if html == "" {
    } else if |p| > maxLength {
      NoTagPrefix(p, maxLength);
      NoTagAppend(p[..maxLength], "...");
    }
  }
}
