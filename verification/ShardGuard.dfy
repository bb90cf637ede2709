/** The shard's own write gate (internal/api/shard.go). */
module ShardGuard {

  datatype PostOutcome = Accepted | Forbidden | InsufficientStorage

  /** unicode.IsSpace */
  predicate IsSpace(c: char) {
    || c == ' ' || '\U{9}' <= c <= '\U{D}' || c == '\U{85}' || c == '\U{A0}' || c == '\U{1680}'
    || '\U{2000}' <= c <= '\U{200A}' || c == '\U{2028}' || c == '\U{2029}' || c == '\U{202F}' || c == '\U{205F}' || c == '\U{3000}'
  }

  function TrimSpace(s: string): string {
    if s == "" then "" else
    if IsSpace(s[0]) then TrimSpace(s[1..]) else
    if IsSpace(s[|s| - 1]) then TrimSpace(s[..|s| - 1]) else s
  }

  lemma {:induction false} BlankTrimsToNothing(s: string)
    ensures TrimSpace(s) == "" <==> forall i :: 0 <= i < |s| ==> IsSpace(s[i])
    decreases |s|
  {
    hide IsSpace;
    if s != "" {
      if IsSpace(s[0]) {
        BlankTrimsToNothing(s[1..]);
        assert forall i :: 1 <= i < |s| ==> s[i] == s[1..][i - 1];
      } else if IsSpace(s[|s| - 1]) {
        BlankTrimsToNothing(s[..|s| - 1]);
        assert s[0] == s[..|s| - 1][0];
      }
    }
  }

  /** The character a letter folds to: ASCII upper case, and the Kelvin sign and long s that fold to k and s. */
  function Fold(c: char): char {
    if 'A' <= c <= 'Z' then (c as int + 32) as char else
    if c == '\U{212A}' then 'k' else if c == '\U{17F}' then 's' else c
  }

  /** strings.EqualFold against an ASCII word. */
  predicate EqualFold(s: string, word: string) {
    |s| == |word| && forall i :: 0 <= i < |s| ==> Fold(s[i]) == Fold(word[i])
  }

  const DISK_FULL: string := "disk_full"

  class Guard {
    const role: string
    var readOnly: bool
    var writeBlockReason: string

    constructor (role: string, readOnly: bool)
      ensures this.role == role && this.readOnly == readOnly && writeBlockReason == ""
    {
      this.role, this.readOnly, writeBlockReason := role, readOnly, "";
    }

    predicate WriteAllowed()
      reads this
    {
      !readOnly && !EqualFold(role, "replica") && writeBlockReason == ""
    }

    /** The seal endpoint: only a primary takes it. */
    method Seal() returns (sealed: bool)
      modifies this`readOnly
      ensures sealed <==> EqualFold(role, "primary")
      ensures readOnly == (old(readOnly) || sealed)
    {
      if !EqualFold(role, "primary") { return false; }
      readOnly := true;
      sealed := true;
    }

    /** Surrounding white space is dropped, so a blank reason lifts the block. */
    method SetWriteBlockReason(reason: string)
      modifies this`writeBlockReason
      ensures writeBlockReason == TrimSpace(reason)
      ensures writeBlockReason == "" <==> forall i :: 0 <= i < |reason| ==> IsSpace(reason[i])
    {
      BlankTrimsToNothing(reason);
      writeBlockReason := TrimSpace(reason);
    }
  }

  /** The middleware in front of package POSTs; without a guard everything passes. */
  method Post(g: Guard?) returns (r: PostOutcome)
    ensures r == Accepted <==> g == null || (!g.readOnly && !EqualFold(g.role, "replica") && g.writeBlockReason == "")
    ensures r == InsufficientStorage <==> g != null && EqualFold(g.writeBlockReason, DISK_FULL)
  {
    if g == null || g.WriteAllowed() { return Accepted; }
    r := if EqualFold(g.writeBlockReason, DISK_FULL) then InsufficientStorage else Forbidden;
  }
}
