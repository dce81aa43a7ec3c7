/** The run configuration chosen at the start of a pipeline run. */
module MainConfig {
  import opened Wrappers
  import opened PyStr

  /** The chunk size used when the model name matches none of the known families. */
  const DefaultChunkSize: nat := 8000

  /** The only accepted analysis modes. */
  predicate ValidMode(mode: string) {
    mode == "text" || mode == "graph"
  }

  /**
   * The token budget for one chunk, chosen from the lower-cased model name:
   * "mistral" is tested first, then "deepseek-coder", then "gemma2".
   */
  function ChunkSize(model: string): (n: nat)
    ensures Contains(Lower(model), "mistral") ==> n == 30000
    ensures !Contains(Lower(model), "mistral") && Contains(Lower(model), "deepseek-coder") ==> n == 14000
    ensures (!Contains(Lower(model), "mistral") && !Contains(Lower(model), "deepseek-coder")
             && Contains(Lower(model), "gemma2")) ==> n == 6000
    ensures (!Contains(Lower(model), "mistral") && !Contains(Lower(model), "deepseek-coder")
             && !Contains(Lower(model), "gemma2")) ==> n == DefaultChunkSize
  {
    var m := Lower(model);
    if Contains(m, "mistral") then 30000
    else if Contains(m, "deepseek-coder") then 14000
    else if Contains(m, "gemma2") then 6000
    else DefaultChunkSize
  }

  /** Lower-casing is idempotent, character by character. */
  lemma LowerIdempotent(s: string)
    ensures Lower(Lower(s)) == Lower(s)
  {
    var l := Lower(s);
    forall i | 0 <= i < |s| ensures Lower(l)[i] == l[i] {
      var c := s[i];
      if 'A' <= c <= 'Z' {
        assert l[i] == (c as int + 32) as char;
      }
    }
  }

  /** The chunk size does not depend on how the model name is capitalised. */
  lemma ChunkSizeIgnoresCase(model: string)
    ensures ChunkSize(Lower(model)) == ChunkSize(model)
  {
    LowerIdempotent(model);
  }

  /**
   * The start of `main`: an invalid mode stops the run (None); otherwise the
   * chunk size for the model.
   */
  function Configure(mode: string, model: string): (r: Option<nat>)
    ensures r.None? <==> !ValidMode(mode)
    ensures r.Some? ==> r.value == ChunkSize(model)
  {
    if !ValidMode(mode) then None else Some(ChunkSize(model))
  }
}
