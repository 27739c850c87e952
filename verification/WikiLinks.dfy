/** Wiki links in markdown text: [[target]] and [[target|label]], as the link pattern of the
    search service matches them, leftmost first and without overlap. */
module WikiLinks {
  import opened Common

  datatype Match = Match(target: string, end: nat)

  predicate TargetChar(c: char) { c != ']' && c != '|' }

  predicate LabelChar(c: char) { c != ']' }

  /** Where the longest run of `ok` characters from `i` stops. */
  function RunEnd(s: string, i: nat, ok: char -> bool): (j: nat)
    requires i <= |s|
    ensures i <= j <= |s| && (forall k :: i <= k < j ==> ok(s[k])) && (j < |s| ==> !ok(s[j]))
    decreases |s| - i
  {
    if i < |s| && ok(s[i]) then RunEnd(s, i + 1, ok) else i
  }

  predicate Closes(s: string, i: nat) {
    i + 2 <= |s| && s[i] == ']' && s[i + 1] == ']'
  }

  /** The link that begins at `i`, if one does. */
  function MatchAt(s: string, i: nat): (m: Option<Match>)
    requires i <= |s|
    ensures m.Some? ==> i + 5 <= m.value.end <= |s|
  {
    if !(i + 2 <= |s| && s[i] == '[' && s[i + 1] == '[') then None
    else
      var j := RunEnd(s, i + 2, TargetChar);
      if j == i + 2 then None
      else if Closes(s, j) then Some(Match(s[i + 2..j], j + 2))
      else if j < |s| && s[j] == '|' then
        var k := RunEnd(s, j + 1, LabelChar);
        if k > j + 1 && Closes(s, k) then Some(Match(s[i + 2..j], k + 2)) else None
      else None
  }

  /** The text of a link, without saying how it is found. */
  ghost predicate IsLink(text: string, target: string) {
    && target != "" && ']' !in target && '|' !in target
    && (text == "[[" + target + "]]"
        || exists caption: string :: caption != "" && ']' !in caption && text == "[[" + target + "|" + caption + "]]")
  }

  lemma ThreeSlices(s: string, a: nat, b: nat, c: nat, d: nat)
    requires a <= b <= c <= d <= |s|
    ensures s[a..d] == s[a..b] + s[b..c] + s[c..d]
  {
  }

  lemma PlainText(s: string, i: nat, j: nat)
    requires i + 2 <= j && j + 2 <= |s| && s[i] == '[' && s[i + 1] == '[' && s[j] == ']' && s[j + 1] == ']'
    ensures s[i..j + 2] == "[[" + s[i + 2..j] + "]]"
  {
    assert s[i..i + 2] == "[[" && s[j..j + 2] == "]]";
    ThreeSlices(s, i, i + 2, j, j + 2);
  }

  lemma CaptionedText(s: string, i: nat, j: nat, k: nat)
    requires i + 2 <= j < k && k + 2 <= |s| && s[i] == '[' && s[i + 1] == '[' && s[j] == '|'
    requires s[k] == ']' && s[k + 1] == ']'
    ensures s[i..k + 2] == "[[" + s[i + 2..j] + "|" + s[j + 1..k] + "]]"
  {
    assert s[i..i + 2] == "[[" && s[j..j + 1] == "|" && s[k..k + 2] == "]]";
    ThreeSlices(s, i, i + 2, j, k + 2);
    ThreeSlices(s, j, j + 1, k, k + 2);
    JoinFive("[[", s[i + 2..j], "|", s[j + 1..k], "]]");
  }

  lemma JoinFive(a: string, b: string, c: string, d: string, e: string)
    ensures a + b + (c + d + e) == a + b + c + d + e
  {
  }

  lemma MatchIsLink(s: string, i: nat)
    requires i <= |s| && MatchAt(s, i).Some?
    ensures IsLink(s[i..MatchAt(s, i).value.end], MatchAt(s, i).value.target)
  {
    var j := RunEnd(s, i + 2, TargetChar);
    if Closes(s, j) {
      PlainText(s, i, j);
    } else {
      CaptionedText(s, i, j, RunEnd(s, j + 1, LabelChar));
    }
  }

  lemma RunIs(s: string, i: nat, j: nat, ok: char -> bool)
    requires i <= j <= |s| && (forall k :: i <= k < j ==> ok(s[k])) && (j < |s| ==> !ok(s[j]))
    ensures RunEnd(s, i, ok) == j
  {
  }

  /** The opening of a link and its target, at `i`. */
  lemma OpeningAt(s: string, i: nat, text: string, target: string, rest: string)
    requires i + |text| <= |s| && s[i..i + |text|] == text && text == "[[" + target + rest
    requires target != "" && (forall c :: c in target ==> TargetChar(c)) && rest != "" && !TargetChar(rest[0])
    ensures var j := i + 2 + |target|;
            && s[i] == '[' && s[i + 1] == '[' && s[i + 2..j] == target && RunEnd(s, i + 2, TargetChar) == j
            && s[j..j + |rest|] == rest
  {
    var j := i + 2 + |target|;
    assert text[0] == '[' && text[1] == '[' && s[i] == text[0] && s[i + 1] == text[1];
    assert forall k :: 0 <= k < |text| ==> s[i + k] == text[k];
    assert |text| == 2 + |target| + |rest|;
    assert text[2..2 + |target|] == target && text[2 + |target|..] == rest;
    assert s[i + 2..j] == text[2..2 + |target|];
    assert s[j..j + |rest|] == text[2 + |target|..];
    forall n | i + 2 <= n < j ensures TargetChar(s[n]) {
      assert s[n] == target[n - i - 2];
    }
    assert s[j] == rest[0];
    RunIs(s, i + 2, j, TargetChar);
  }

  lemma PlainIsMatch(s: string, i: nat, end: nat, target: string)
    requires i <= end <= |s| && s[i..end] == "[[" + target + "]]"
    requires target != "" && (forall c :: c in target ==> TargetChar(c))
    ensures MatchAt(s, i) == Some(Match(target, end))
  {
    var j := i + 2 + |target|;
    OpeningAt(s, i, s[i..end], target, "]]");
    var close := s[j..j + 2];
    assert s[j] == close[0] && s[j + 1] == close[1];
  }

  lemma CaptionedIsMatch(s: string, i: nat, end: nat, target: string, caption: string)
    requires i <= end <= |s| && s[i..end] == "[[" + target + "|" + caption + "]]"
    requires target != "" && (forall c :: c in target ==> TargetChar(c)) && caption != "" && ']' !in caption
    ensures MatchAt(s, i) == Some(Match(target, end))
  {
    var rest := "|" + caption + "]]";
    assert s[i..end] == "[[" + target + rest;
    OpeningAt(s, i, s[i..end], target, rest);
    CaptionAt(s, i + 2 + |target|, caption);
  }

  lemma LinkIsMatch(s: string, i: nat, end: nat, target: string)
    requires i <= end <= |s| && IsLink(s[i..end], target)
    ensures MatchAt(s, i) == Some(Match(target, end))
  {
    hide MatchAt;
    if s[i..end] == "[[" + target + "]]" {
      PlainIsMatch(s, i, end, target);
    } else {
      var caption: string :| caption != "" && ']' !in caption && s[i..end] == "[[" + target + "|" + caption + "]]";
      CaptionedIsMatch(s, i, end, target, caption);
    }
  }

  lemma CaptionAt(s: string, j: nat, caption: string)
    requires j + |caption| + 3 <= |s| && s[j..j + |caption| + 3] == "|" + caption + "]]"
    requires ']' !in caption
    ensures s[j] == '|' && RunEnd(s, j + 1, LabelChar) == j + 1 + |caption| && Closes(s, j + 1 + |caption|)
  {
    var rest, k := "|" + caption + "]]", j + 1 + |caption|;
    assert s[j] == rest[0] && s[k] == rest[|caption| + 1] && s[k + 1] == rest[|caption| + 2];
    forall n | j + 1 <= n < k ensures LabelChar(s[n]) {
      assert s[n] == rest[n - j] == caption[n - j - 1];
    }
    RunIs(s, j + 1, k, LabelChar);
  }

  /** At one position at most one link begins, and it is found exactly when it is there. */
  lemma MatchExactly(s: string, i: nat, end: nat, target: string)
    requires i <= end <= |s|
    ensures MatchAt(s, i) == Some(Match(target, end)) <==> IsLink(s[i..end], target)
  {
    if MatchAt(s, i) == Some(Match(target, end)) { MatchIsLink(s, i); }
    if IsLink(s[i..end], target) { LinkIsMatch(s, i, end, target); }
  }

  /** FindAllStringSubmatch, first groups only. */
  function FindAll(s: string, i: nat): seq<string>
    requires i <= |s|
    decreases |s| - i
  {
    if i == |s| then []
    else
      match MatchAt(s, i)
      case Some(m) => [m.target] + FindAll(s, m.end)
      case None => FindAll(s, i + 1)
  }

  /** Everything found is a link of the text. */
  lemma {:induction false} FoundIsLink(s: string, from: nat, target: string)
    requires from <= |s| && target in FindAll(s, from)
    ensures exists i, end :: from <= i <= end <= |s| && IsLink(s[i..end], target)
    decreases |s| - from
  {
    match MatchAt(s, from) {
      case Some(m) =>
        MatchIsLink(s, from);
        if target == m.target {
          assert from <= from <= m.end <= |s| && IsLink(s[from..m.end], target);
        } else {
          FoundIsLink(s, m.end, target);
          var i, end :| m.end <= i <= end <= |s| && IsLink(s[i..end], target);
          assert from <= i;
        }
      case None =>
        FoundIsLink(s, from + 1, target);
        var i, end :| from + 1 <= i <= end <= |s| && IsLink(s[i..end], target);
        assert from <= i;
    }
  }

  /** Every link of the text is found, unless it begins inside a link that was found before it. */
  lemma {:induction false} LinkFoundOrCovered(s: string, from: nat, i: nat, end: nat, target: string)
    requires from <= i <= end <= |s| && IsLink(s[i..end], target)
    ensures target in FindAll(s, from)
            || exists j, stop, other ::
                 from <= j < i < stop <= |s| && IsLink(s[j..stop], other) && other in FindAll(s, from)
    decreases |s| - from
  {
    hide IsLink;
    MatchExactly(s, i, end, target);
    if from < i {
      match MatchAt(s, from) {
        case Some(m) =>
          if m.end <= i {
            LinkFoundOrCovered(s, m.end, i, end, target);
            if target !in FindAll(s, m.end) {
              var j, stop, other :|
                m.end <= j < i < stop <= |s| && IsLink(s[j..stop], other) && other in FindAll(s, m.end);
              assert from <= j && other in FindAll(s, from);
            }
          } else {
            MatchIsLink(s, from);
            assert from <= from < i < m.end <= |s| && IsLink(s[from..m.end], m.target) && m.target in FindAll(s, from);
          }
        case None =>
          LinkFoundOrCovered(s, from + 1, i, end, target);
          if target !in FindAll(s, from + 1) {
            var j, stop, other :|
              from + 1 <= j < i < stop <= |s| && IsLink(s[j..stop], other) && other in FindAll(s, from + 1);
            assert from <= j && other in FindAll(s, from);
          }
      }
    }
  }

  /** In text whose only "[" are those of one link, that link is found and nothing else is. */
  lemma SingleLink(before: string, target: string, after: string)
    requires '[' !in before && '[' !in after && target != "" && '[' !in target
    requires forall c :: c in target ==> TargetChar(c)
    ensures FindAll(before + "[[" + target + "]]" + after, 0) == [target]
  {
    var s := before + "[[" + target + "]]" + after;
    var i, end := |before|, |before| + |target| + 4;
    assert s[i..end] == "[[" + target + "]]";
    MatchExactly(s, i, end, target);
    NothingBefore(s, 0, i);
    NothingBefore(s, end, |s|);
  }

  lemma {:induction false} NothingBefore(s: string, from: nat, i: nat)
    requires from <= i <= |s| && forall k :: from <= k < i ==> s[k] != '['
    ensures FindAll(s, from) == FindAll(s, i)
    decreases i - from
  {
    if from < i { NothingBefore(s, from + 1, i); }
  }

  /** The loop over the matches of one file, keeping each target once. */
  method LinkTargets(content: string) returns (targets: seq<string>)
    ensures forall t :: t in targets <==> t in FindAll(content, 0)
    ensures forall i, j :: 0 <= i < j < |targets| ==> targets[i] != targets[j]
  {
    targets := [];
    var seen: set<string> := {};
    var matches := FindAll(content, 0);
    for i := 0 to |matches|
      invariant forall t :: t in seen <==> t in targets
      invariant forall t :: t in targets <==> t in matches[..i]
      invariant forall a, b :: 0 <= a < b < |targets| ==> targets[a] != targets[b]
    {
      var target := matches[i];
      if target !in seen {
        seen := seen + {target};
        targets := targets + [target];
      }
    }
    assert matches[..|matches|] == matches;
  }
}
