/** The development server's proxy rule for paths under '/api' (frontend/vite.config.ts). */
module DevProxy {

  const ProxyPrefix: string := "/api"

  predicate StartsWith(s: string, p: string) {
    |p| <= |s| && s[..|p|] == p
  }

  /**
   * path.replace(/^\/api/, ''): the pattern is anchored at the start and has no
   * 'g' flag, so at most one leading "/api" is removed, whatever follows it.
   */
  function Rewrite(path: string): (r: string)
    ensures StartsWith(path, ProxyPrefix) ==> ProxyPrefix + r == path
    ensures !StartsWith(path, ProxyPrefix) ==> r == path
  {
    if StartsWith(path, ProxyPrefix) then path[|ProxyPrefix|..] else path
  }

  /** Putting the prefix in front and rewriting gives the path back, even when it starts with "/api" itself. */
  lemma RewriteUndoesPrefix(p: string)
    ensures Rewrite(ProxyPrefix + p) == p
  {
    assert (ProxyPrefix + p)[..|ProxyPrefix|] == ProxyPrefix;
  }

  /** When the prefix is there the result is the path less its first four characters. */
  lemma RewriteDropsFour(path: string)
    ensures StartsWith(path, ProxyPrefix) ==> |Rewrite(path)| == |path| - 4 && Rewrite(path) == path[4..]
  {}

  /** The comment's example, one occurrence only, and no regard for path segments. */
  lemma RewriteExamples()
    ensures Rewrite("/api/predict") == "/predict"
    ensures Rewrite("/api/api/x") == "/api/x"
    ensures Rewrite("/apix") == "x"
    ensures Rewrite("/predict") == "/predict"
  {
    RewriteUndoesPrefix("/predict");
    RewriteUndoesPrefix("/api/x");
    RewriteUndoesPrefix("x");
    assert "/predict"[1] == 'p' && ProxyPrefix[1] == 'a';
  }

  /** Because only one occurrence goes, rewriting twice can differ from rewriting once. */
  lemma RewriteNotIdempotent()
    ensures Rewrite(Rewrite("/api/api/x")) != Rewrite("/api/api/x")
  {
    RewriteExamples();
    RewriteUndoesPrefix("/x");
    assert "/api/x" == ProxyPrefix + "/x";
  }
}
