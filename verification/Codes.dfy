/** Machine-readable codes: the pattern ^[a-z][a-z0-9_.-]+$ of benchmark records and session events. */
module Codes {

  predicate IsCodeChar(c: char) {
    'a' <= c <= 'z' || '0' <= c <= '9' || c == '_' || c == '.' || c == '-'
  }

  predicate ValidCode(s: string) {
    |s| >= 2 && 'a' <= s[0] <= 'z' && forall i :: 0 <= i < |s| ==> IsCodeChar(s[i])
  }

  /** The pattern, character by character. */
  lemma CodeCharacters(c: char)
    ensures IsCodeChar(c) <==> c in "abcdefghijklm" || c in "nopqrstuvwxyz" || c in "0123456789" || c in "_.-"
  {
    var a, n, d := "abcdefghijklm", "nopqrstuvwxyz", "0123456789";
    if 'a' <= c <= 'm' { assert a[c as int - 'a' as int] == c; }
    if 'n' <= c <= 'z' { assert n[c as int - 'n' as int] == c; }
    if '0' <= c <= '9' { assert d[c as int - '0' as int] == c; }
  }

  lemma ValidWithSuffix(s: string, t: string)
    requires ValidCode(s) && forall i :: 0 <= i < |t| ==> IsCodeChar(t[i])
    ensures ValidCode(s + t)
  {
  }

  /** The codes the engine writes itself. */
  lemma EngineCodes()
    ensures ValidCode("benchmark.cancelled_before_start") && ValidCode("benchmark.cancelled")
    ensures ValidCode("benchmark.adapter_error") && ValidCode("benchmark.timeout") && ValidCode("benchmark.partial")
  {
  }

  /** The codes of the teaching scenarios. */
  lemma SessionCodes()
    ensures ValidCode("session.created") && ValidCode("miner.offer") && ValidCode("agent.accept") && ValidCode("miner.start")
    ensures ValidCode("miner.cancelled") && ValidCode("policy.execution_timeout")
  {
  }

  lemma ValidationCodes()
    ensures ValidCode("miner.submitted") && ValidCode("validator.sample") && ValidCode("validator.settled")
    ensures ValidCode("challenge.rejected") && ValidCode("challenge.")
  {
  }
}
