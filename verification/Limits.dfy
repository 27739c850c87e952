/** Which accepted writes the search index never shows: the request check and the index use
    different size limits. */
module Limits {
  import opened Common
  import opened Worktree
  import opened Commits
  import opened Changesets
  import GitTrees
  import Paths
  import SearchIndex
  import Transfer

  predicate PlainWrite(c: Change) {
    (c.op.Create? || c.op.Update?) && c.encoding.Plain?
  }

  /** The content is too large for the index, or not text. */
  predicate Unfit(content: string) {
    |TrimSpace(content)| > 2097152 || '\0' in content
  }

  lemma FitExactly(content: string)
    ensures SearchIndex.Indexable(GitTrees.Blob(content, true)) <==> !Unfit(content)
  {
    hide GoSpace;
    TrimKeepsChars(GoSpace, content);
    TrimCuts(GoSpace, content);
    var before, after :| content == before + TrimSpace(content) + after && All(GoSpace, before) && All(GoSpace, after);
    NulIsNoSpace();
    if '\0' in content {
      var i :| 0 <= i < |content| && content[i] == '\0';
      assert content[i] in TrimSpace(content);
    }
  }

  lemma NulIsNoSpace()
    ensures !GoSpace('\0')
  {
  }

  /** What the changeset of one plain write leaves at its path. */
  lemma WrittenBlob(head: Commit, base: Commit, c: Change, meta: Meta, k: Commit)
    requires PlainWrite(c) && Proper(c) && PrefixFree(head.tree)
    requires Verdict(head, false, Input(base, [c], false, meta)) == Committed(k)
    ensures Find(k.tree, Paths.Locate(c.path)) == Some(c.content)
  {
    hide Build, CheckoutOf, ValidChangeset, Paths.Locate, PrefixFree;
    BuildMeaning(head.tree, [c]);
    Transfer.PlainDecodes([c]);
    assert [c][1..] == [];
    assert GitEffects(head.tree, [c]) == GitEffects(GitEffect(head.tree, c), []);
  }

  /** After one plain write has committed and a complete pass has read its tree: its path has the row of
      what was written exactly when that is small enough, trimmed, and has no NUL. Otherwise the row at
      the path, if any, is the one from before. */
  lemma WriteIndexedExactly(head: Commit, base: Commit, c: Change, meta: Meta, k: Commit, dir: GitTrees.Directory,
                            rows: SearchIndex.Rows)
    requires PlainWrite(c) && Proper(c) && PrefixFree(head.tree)
    requires Verdict(head, false, Input(base, [c], false, meta)) == Committed(k)
    requires Transfer.Represents(dir, k.tree) && SearchIndex.CacheSound(rows)
    ensures var p, blob := Paths.Locate(c.path), GitTrees.Blob(c.content, true);
            var after := SearchIndex.Pass(rows, SearchIndex.Reading(dir, {}));
            && (p in after && SearchIndex.Describes(after[p], blob) <==> !Unfit(c.content))
            && (Unfit(c.content) ==> Find(after, p) == Find(rows, p))
  {
    hide Verdict, SearchIndex.Pass, SearchIndex.Indexable, GitTrees.Lookup, GitTrees.WellNamed, Paths.Locate, Unfit,
      SearchIndex.Fit, SearchIndex.TitleIs;
    var p, blob := Paths.Locate(c.path), GitTrees.Blob(c.content, true);
    WrittenBlob(head, base, c, meta, k);
    FitExactly(c.content);
    SearchIndex.FitExactly(blob);
    SearchIndex.PassDescribes(rows, SearchIndex.Reading(dir, {}), p);
    if p in rows { assert SearchIndex.Indexable(rows[p].sha); }
  }

  /** Between the two limits: text of more than 2 MiB and at most 5 MiB is accepted by the request check,
      though no pass ever takes it. */
  lemma LargeTextAccepted(path: string, n: nat)
    requires Paths.AcceptsDocPath(path) && 2097152 < n <= 5242880
    ensures var c := Change(Create, path, seq(n, _ => 'x'), Plain, "");
            ValidChange(c) && !SearchIndex.Indexable(GitTrees.Blob(c.content, true))
  {
    hide Paths.AcceptsDocPath, TrimLeft, TrimRight, GoSpace;
    var content := seq(n, _ => 'x');
    LetterIsNoSpace();
    TrimFixes(GoSpace, content);
    FitExactly(content);
  }

  lemma LetterIsNoSpace()
    ensures !GoSpace('x')
  {
  }
}
