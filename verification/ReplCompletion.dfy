/** wrapAsyncCompletion (apps/kernel/src/repl-transform.ts) and why applying it twice is harmless. */
module ReplCompletion {
  import opened Prelude
  import opened ReplTokens
  import opened ReplScan

  predicate WordChar(c: char) {
    'A' <= c <= 'Z' || 'a' <= c <= 'z' || '0' <= c <= '9' || c == '_'
  }

  /** The word "await" stands at i. */
  predicate AwaitAt(s: string, i: nat) {
    && i + 5 <= |s| && s[i..i + 5] == "await"
    && (i == 0 || !WordChar(s[i - 1])) && (i + 5 == |s| || !WordChar(s[i + 5]))
  }

  predicate UsesAwait(s: string) {
    exists i :: 0 <= i < |s| && AwaitAt(s, i)
  }

  /** The tail is a single expression as far as its first token tells. */
  predicate ExpressionTail(tail: string) {
    && tail != "" && tail[0] != '{'
    && !(IdentStart(tail[0]) && tail[..IdentLen(tail)] in STMT_LEAD)
  }

  function WrapAsyncCompletion(src: string): string {
    if src == "" || !UsesAwait(src) then src
    else
      var b := Scan(NextOf(KEYWORDS), src, 0, true);
      if b.None? || b.value == 0 || b.value >= |src| then src
      else
        var tail := TrimEnd(TrimStart(src[b.value..]));
        if !ExpressionTail(tail) then src else Wrapped(src[..b.value], tail)
  }

  // ---- the source's tokens have the properties -----------------------------------------------

  lemma NextIsLocalOf(kw: Words)
    ensures Local(NextOf(kw))
  {
    forall s, t, ok | EndsInside(NextOf(kw), s, t, ok) ensures NextOf(kw)(t, ok) == NextOf(kw)(s, ok) {
      NextIsLocal(kw, s, t, ok);
    }
  }

  lemma NextHasOneCharBoundaries(kw: Words)
    ensures OneCharBoundaries(NextOf(kw))
  {
    forall s, u, ok | SameFirst(NextOf(kw), s, u, ok)
      ensures NextOf(kw)(s, ok).len == 1 && NextOf(kw)(u, ok) == NextOf(kw)(s, ok)
    {
      BoundaryToken(kw, s, u, ok);
    }
  }

  lemma NextReadsEdges(kw: Words)
    ensures Edges(NextOf(kw))
  {
    forall t, x, ok | AtEdge(NextOf(kw), t, x, ok)
      ensures ReadsAtEdge(NextOf(kw), t, NextOf(kw)(t + x, ok).kind, ok)
    {
      EdgeToken(kw, t, x, ok);
    }
  }

  lemma NextReadsInserted(kw: Words)
    requires kw("return")
    ensures Inserted(NextOf(kw))
  {
    hide SkipString;
    forall s | |s| > 6 && s[..6] == "return" && s[6] == ' '
      ensures NextOf(kw)(s, true) == Token(6, Word(true))
    {
      ReturnToken(kw, s);
    }
  }

  lemma NextLexes(kw: Words)
    requires kw("return")
    ensures Lexes(NextOf(kw))
  {
    NextIsLocalOf(kw);
    NextHasOneCharBoundaries(kw);
    NextReadsEdges(kw);
    NextReadsInserted(kw);
    NextReadsBlanks(kw);
  }

  lemma NextReadsBlanks(kw: Words)
    ensures Blanks(NextOf(kw)) && Sized(NextOf(kw))
  {
    forall x, ok | x != "" && TrimSpace(x[0])
      ensures NextOf(kw)(x, ok) == Token(1, Trivia) || NextOf(kw)(x, ok) == Token(1, Oper)
    {
      BlankToken(kw, x, ok);
    }
  }

  // ---- idempotence ---------------------------------------------------------------------------

  lemma ReturnLeads()
    ensures KEYWORDS("return")
  {
  }

  /** Applying the completion rewrite twice is applying it once, for every source text. */
  lemma WrapIsIdempotent(src: string)
    ensures WrapAsyncCompletion(WrapAsyncCompletion(src)) == WrapAsyncCompletion(src)
  {
    var out := WrapAsyncCompletion(src);
    if out != src {
      ReturnLeads();
      NextLexes(KEYWORDS);
      var lx := NextOf(KEYWORDS);
      var b := Scan(lx, src, 0, true).value;
      RewrittenRescans(lx, src, b, TrimEnd(TrimStart(src[b..])), out, Scan(lx, out, 0, true));
    }
  }
}
