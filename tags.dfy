/** The description clean-up of the AniList import: every match of the
    regular expression `</?\w+>` is replaced by the empty string. A match is
    `<`, an optional `/`, a run of at least one word character, then `>`.
    Since `>` and `/` are not word characters the match starting at a given
    position is unique, and `StripTags` finds them with one left-to-right scan.
    `ReplaceAll` is the regex engine's own procedure (find the leftmost match,
    drop it, resume after it); `StripTagsIsReplaceAll` proves the two agree. */
module Tags {

  /** The word characters of `\w`, restricted to ASCII. */
  predicate IsWordChar(c: char) {
    ('a' <= c <= 'z') || ('A' <= c <= 'Z') || ('0' <= c <= '9') || c == '_'
  }

  /** What lies between `<` (or `</`) and the final character of `t`. */
  function TagName(t: string): string
    requires |t| >= 3
  {
    if t[1] == '/' then t[2..|t| - 1] else t[1..|t| - 1]
  }

  /** `t` is, as a whole, a match of `</?\w+>`. */
  predicate IsTag(t: string) {
    && |t| >= 3
    && t[0] == '<'
    && t[|t| - 1] == '>'
    && TagName(t) != []
    && forall k :: 0 <= k < |TagName(t)| ==> IsWordChar(TagName(t)[k])
  }

  /** Length of the longest prefix of `t` made of word characters. */
  function WordRun(t: string): (n: nat)
    ensures n <= |t|
  {
    if t != [] && IsWordChar(t[0]) then 1 + WordRun(t[1..]) else 0
  }

  /** The run is made of word characters and is followed by none. */
  lemma {:induction false} WordRunMaximal(t: string)
    ensures forall k :: 0 <= k < WordRun(t) ==> IsWordChar(t[k])
    ensures WordRun(t) < |t| ==> !IsWordChar(t[WordRun(t)])
    decreases |t|
  {
    if t != [] && IsWordChar(t[0]) {
      WordRunMaximal(t[1..]);
      assert forall k :: 1 <= k < WordRun(t) ==> t[k] == t[1..][k - 1];
    }
  }

  /** A run of word characters ended by a non-word character is the whole run. */
  lemma {:induction false} WordRunExact(t: string, k: nat)
    requires k < |t| && !IsWordChar(t[k])
    requires forall j :: 0 <= j < k ==> IsWordChar(t[j])
    ensures WordRun(t) == k
  {
    if k > 0 {
      assert IsWordChar(t[0]);
      assert forall j :: 0 <= j < k - 1 ==> t[1..][j] == t[j + 1];
      WordRunExact(t[1..], k - 1);
    }
  }

  function OpeningTag(name: string): string {
    "<" + name + ">"
  }

  function ClosingTag(name: string): string {
    "</" + name + ">"
  }

  /** `<`, then `name`, then `>` is a tag, and so is the closing form with `</`. */
  lemma TagOfName(name: string)
    requires name != [] && forall k :: 0 <= k < |name| ==> IsWordChar(name[k])
    ensures IsTag(OpeningTag(name)) && IsTag(ClosingTag(name))
  {
    var opening, closing := OpeningTag(name), ClosingTag(name);
    assert opening[1] == name[0] != '/';
    assert opening[1..|opening| - 1] == name;
    assert closing[2..|closing| - 1] == name;
  }

  /** Length of the match of `</?\w+>` that starts `t`, or 0 when none does
      (`TagLenIsMatch` states what it computes). */
  function TagLen(t: string): (n: nat)
    ensures n <= |t|
    ensures n > 0 ==> t[0] == '<'
  {
    if |t| > 0 && t[0] == '<' then
      var j := if |t| > 1 && t[1] == '/' then 2 else 1;
      var w := WordRun(t[j..]);
      if w > 0 && j + w < |t| && t[j + w] == '>' then j + w + 1 else 0
    else
      0
  }

  /** A prefix of `t` is a match of `</?\w+>` exactly when it is
      `TagLen(t)` characters long; so there is none when `TagLen(t) == 0`. */
  lemma TagLenIsMatch(t: string)
    ensures forall m :: 0 < m <= |t| ==> (IsTag(t[..m]) <==> m == TagLen(t))
  {
    var j := if |t| > 1 && t[1] == '/' then 2 else 1;
    var n := TagLen(t);
    if n > 0 {
      var w := WordRun(t[j..]);
      WordRunMaximal(t[j..]);
      assert n == j + w + 1;
      assert IsTag(t[..n]) by {
        var u := t[..n];
        assert u[1] == t[1];
        assert u[j..|u| - 1] == t[j..][..w];
      }
    }
    TagPrefixUnique(t, j, n);
  }

  /** Every tag prefix of `t` is `<` or `</`, a word run, then `>`; so at most
      one prefix is a tag, and `n` names it when it is one. */
  lemma TagPrefixUnique(t: string, j: nat, n: nat)
    requires j == if |t| > 1 && t[1] == '/' then 2 else 1
    requires n <= |t|
    requires n > 0 ==> IsTag(t[..n])
    requires n == 0 ==> !(|t| > 0 && t[0] == '<' && j < |t| && WordRun(t[j..]) > 0
                          && j + WordRun(t[j..]) < |t| && t[j + WordRun(t[j..])] == '>')
    ensures forall m :: 0 < m <= |t| ==> (IsTag(t[..m]) <==> m == n)
  {
    forall m | 0 < m <= |t|
      ensures IsTag(t[..m]) <==> m == n
    {
      TagPrefixShape(t, j, m);
      if n > 0 {
        TagPrefixShape(t, j, n);
      }
    }
  }

  /** The shape of a tag prefix of `t`, `m` characters long. */
  lemma TagPrefixShape(t: string, j: nat, m: nat)
    requires j == if |t| > 1 && t[1] == '/' then 2 else 1
    requires 0 < m <= |t|
    ensures IsTag(t[..m]) ==>
              && t[0] == '<' && j < m && t[m - 1] == '>'
              && WordRun(t[j..]) == m - 1 - j
  {
    if IsTag(t[..m]) {
      var u := t[..m];
      assert u[1] == t[1] && u[0] == t[0] && u[m - 1] == t[m - 1];
      var name := u[j..m - 1];
      assert name == TagName(u);
      forall k | 0 <= k < m - 1 - j
        ensures IsWordChar(t[j..][k])
      {
        assert t[j..][k] == t[j + k] == u[j + k] == name[k];
      }
      assert t[j..][m - 1 - j] == t[m - 1];
      WordRunExact(t[j..], m - 1 - j);
    }
  }

  /** One left-to-right scan: a tag starting here is dropped, any other
      character is kept and the scan moves on by one. */
  function StripTags(s: string): (r: string)
    ensures |r| <= |s|
  {
    if s == [] then []
    else
      var n := TagLen(s);
      if n > 0 then StripTags(s[n..]) else [s[0]] + StripTags(s[1..])
  }

  /** Where the leftmost match starts, or `|s|` when `s` holds none. */
  function LeftmostTag(s: string): (p: nat)
    ensures p <= |s|
  {
    if s == [] then 0
    else if TagLen(s) > 0 then 0
    else 1 + LeftmostTag(s[1..])
  }

  /** No match starts before the leftmost one, and one starts there unless
      it is the end of the text. */
  lemma {:induction false} LeftmostTagIsLeftmost(s: string)
    ensures var p := LeftmostTag(s);
            && (forall i {:trigger TagLen(s[i..])} :: 0 <= i < p ==> TagLen(s[i..]) == 0)
            && (p < |s| ==> TagLen(s[p..]) > 0)
    decreases |s|
  {
    if s != [] && TagLen(s) == 0 {
      var p := LeftmostTag(s);
      LeftmostTagIsLeftmost(s[1..]);
      assert s[0..] == s;
      forall i | 1 <= i < p
        ensures TagLen(s[i..]) == 0
      {
        assert s[i..] == s[1..][i - 1..];
      }
      assert p < |s| ==> s[p..] == s[1..][p - 1..];
    } else if s != [] {
      assert s[0..] == s;
    }
  }

  /** What follows the leftmost match. */
  function AfterLeftmost(s: string): (t: string)
    requires LeftmostTag(s) < |s|
    ensures |t| < |s| - LeftmostTag(s)
  {
    LeftmostTagIsLeftmost(s);
    var p := LeftmostTag(s);
    s[p + TagLen(s[p..])..]
  }

  /** The regex engine's `replace_all` with the empty replacement: copy the
      text before the leftmost match, drop the match, and continue after it. */
  function ReplaceAll(s: string): (r: string)
    ensures |r| <= |s|
    decreases |s|
  {
    if LeftmostTag(s) == |s| then s
    else s[..LeftmostTag(s)] + ReplaceAll(AfterLeftmost(s))
  }

  /** Cutting `s` after its first character and then at `p - 1` is cutting it at `p`. */
  lemma HeadSplit(s: string, p: nat)
    requires 0 < p <= |s|
    ensures s[1..][p - 1..] == s[p..]
    ensures s[..p] == [s[0]] + s[1..][..p - 1]
  {
  }

  /** Where no tag starts, the scan keeps the first character. */
  lemma StripKeepsHead(s: string)
    requires s != [] && TagLen(s) == 0
    ensures StripTags(s) == [s[0]] + StripTags(s[1..])
  {
  }

  /** No tag starting before `p` in `s` means none before `p - 1` in `s[1..]`. */
  lemma NoTagShift(s: string, p: nat)
    requires 0 < p <= |s|
    requires forall i {:trigger TagLen(s[i..])} :: 0 <= i < p ==> TagLen(s[i..]) == 0
    ensures TagLen(s) == 0
    ensures forall i {:trigger TagLen(s[1..][i..])} :: 0 <= i < p - 1 ==> TagLen(s[1..][i..]) == 0
  {
    assert s[0..] == s;
    forall i | 0 <= i < p - 1
      ensures TagLen(s[1..][i..]) == 0
    {
      assert s[1..][i..] == s[i + 1..];
    }
  }

  /** Concatenation regrouped to the right. */
  lemma ConcatAssoc(a: string, b: string, c: string)
    ensures a + (b + c) == (a + b) + c
  {
  }

  /** Text in which no tag starts before `p` passes through the scan unchanged. */
  lemma {:induction false} StripPlainPrefix(s: string, p: nat)
    requires p <= |s|
    requires forall i {:trigger TagLen(s[i..])} :: 0 <= i < p ==> TagLen(s[i..]) == 0
    ensures StripTags(s) == s[..p] + StripTags(s[p..])
    decreases p
  {
    if p == 0 {
      assert s[..p] + StripTags(s[p..]) == StripTags(s) by {
        assert s[..p] == [] && s[p..] == s;
      }
    } else {
      var rest := s[1..];
      NoTagShift(s, p);
      StripKeepsHead(s);
      StripPlainPrefix(rest, p - 1);
      HeadSplit(s, p);
      ConcatAssoc([s[0]], rest[..p - 1], StripTags(s[p..]));
    }
  }

  /** Where a tag starts, the scan drops it. */
  lemma StripDropsHead(t: string)
    requires TagLen(t) > 0
    ensures StripTags(t) == StripTags(t[TagLen(t)..])
  {
  }

  /** Dropping `p` and then `n` characters is dropping `p + n`. */
  lemma DropDrop(s: string, p: nat, n: nat)
    requires p + n <= |s|
    ensures s[p..][n..] == s[p + n..]
  {
  }

  /** The scan keeps what precedes the leftmost tag and drops the tag. */
  lemma StripAtLeftmost(s: string, p: nat, n: nat)
    requires p == LeftmostTag(s) < |s|
    requires n == TagLen(s[p..])
    ensures StripTags(s) == s[..p] + StripTags(s[p + n..])
  {
    LeftmostTagIsLeftmost(s);
    StripPlainPrefix(s, p);
    StripDropsHead(s[p..]);
    DropDrop(s, p, n);
  }

  /** Text in which no tag starts passes through the scan unchanged. */
  lemma StripNoTag(s: string)
    requires LeftmostTag(s) == |s|
    ensures StripTags(s) == s
  {
    LeftmostTagIsLeftmost(s);
    StripPlainPrefix(s, |s|);
    assert s[..|s|] == s && s[|s|..] == [];
  }

  /** The scan computes exactly what `replace_all` computes. */
  lemma {:induction false} StripTagsIsReplaceAll(s: string)
    ensures StripTags(s) == ReplaceAll(s)
    decreases |s|
  {
    var p := LeftmostTag(s);
    if p == |s| {
      StripNoTag(s);
    } else {
      var n := TagLen(s[p..]);
      StripAtLeftmost(s, p, n);
      assert AfterLeftmost(s) == s[p + n..];
      StripTagsIsReplaceAll(AfterLeftmost(s));
    }
  }

  /** The scan leaves `s` unchanged exactly when no tag occurs in it, and
      otherwise makes it strictly shorter. */
  lemma StripTagsUnchangedIff(s: string)
    ensures StripTags(s) == s <==> LeftmostTag(s) == |s|
    ensures LeftmostTag(s) < |s| ==> |StripTags(s)| < |s|
  {
    var p := LeftmostTag(s);
    if p == |s| {
      StripNoTag(s);
    } else {
      var n := TagLen(s[p..]);
      StripAtLeftmost(s, p, n);
      assert |StripTags(s[p + n..])| <= |s| - p - n;
    }
  }

  /** A tag at the front is dropped whatever follows it. */
  lemma DropTag(t: string, u: string)
    requires IsTag(t)
    ensures StripTags(t + u) == StripTags(u)
  {
    TagLenIsMatch(t + u);
    assert (t + u)[..|t|] == t;
    assert (t + u)[|t|..] == u;
  }

  /** Text without `<` at the front is kept whatever follows it. */
  lemma {:induction false} KeepPlain(s: string, u: string)
    requires forall k :: 0 <= k < |s| ==> s[k] != '<'
    ensures StripTags(s + u) == s + StripTags(u)
    decreases |s|
  {
    if s != [] {
      assert (s + u)[0] == s[0];
      assert (s + u)[1..] == s[1..] + u;
      KeepPlain(s[1..], u);
    } else {
      assert s + u == u;
    }
  }

  /** Text without any `<` is left as it is. */
  lemma PlainUnchanged(s: string)
    requires forall k :: 0 <= k < |s| ==> s[k] != '<'
    ensures StripTags(s) == s
  {
    KeepPlain(s, []);
    assert s + [] == s;
  }

  /** Text between an opening and a closing tag keeps its words and loses
      both tags. */
  lemma StripWrapped(name: string, text: string, tail: string)
    requires name != [] && forall k :: 0 <= k < |name| ==> IsWordChar(name[k])
    requires forall k :: 0 <= k < |text| ==> text[k] != '<'
    requires forall k :: 0 <= k < |tail| ==> tail[k] != '<'
    ensures StripTags(OpeningTag(name) + text + ClosingTag(name) + tail) == text + tail
  {
    var opening, closing := OpeningTag(name), ClosingTag(name);
    TagOfName(name);
    DropTag(closing, tail);
    PlainUnchanged(tail);
    KeepPlain(text, closing + tail);
    DropTag(opening, text + (closing + tail));
    Regroup(opening, text, closing, tail);
  }

  /** Four pieces concatenated, regrouped to the right. */
  lemma Regroup(a: string, b: string, c: string, d: string)
    ensures a + b + c + d == a + (b + (c + d))
  {
  }

  /** The scan removes `<b>` and `</b>` and keeps the words around them. */
  lemma StripBoldExample()
    ensures StripTags(OpeningTag("b") + "Hello" + ClosingTag("b") + " World") == "Hello" + " World"
  {
    StripWrapped("b", "Hello", " World");
  }

  /** A tag with attributes is not a match: the space after `a` is not a word
      character, so the text is left as it is. */
  lemma AttributeTagKept()
    ensures StripTags("<a href=\"x\">") == "<a href=\"x\">"
  {
    var s := "<a href=\"x\">";
    WordRunExact(s[1..], 1);
    assert TagLen(s) == 0;
    KeepPlain(s[1..], []);
    assert s[1..] + [] == s[1..];
    assert s == [s[0]] + s[1..];
  }

  /** The scan is not idempotent: removing a tag can bring the two halves of
      another one together. */
  lemma NotIdempotent()
    ensures StripTags("<<b>b>") == "<b>"
    ensures StripTags(StripTags("<<b>b>")) == ""
  {
    var s := "<<b>b>";
    TagOfName("b");
    assert WordRun(s[1..]) == 0;
    assert TagLen(s) == 0;
    assert s == [s[0]] + ("<b>" + "b>");
    DropTag("<b>", "b>");
    KeepPlain("b>", []);
    assert "b>" + [] == "b>";
    assert [s[0]] + "b>" == "<b>";
    DropTag("<b>", []);
    assert "<b>" + [] == "<b>";
  }
}
