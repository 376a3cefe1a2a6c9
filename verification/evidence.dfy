/** The evidence log kept on every `(head)-[TYPE]->(tail)` edge of the graph.
    A stored value of `None` is a null (absent) `r.evidence` property; an
    incoming value of `None` is a relationship whose `"evidence"` is JSON null. */
module Evidence {
  import opened Wrappers
  import opened Text

  /** Stored evidence read as text, with null read as "". */
  function Log(e: Option<string>): string {
    e.GetOr("")
  }

  /** The `ON MATCH SET r.evidence = CASE ... END` expression exactly as the
      Cypher evaluates it, null comparisons included: a null `$evidence`
      fails every WHEN test, and `r.evidence + '\n' + null` is null. */
  function MergeAsWritten(stored: Option<string>, incoming: Option<string>): Option<string> {
    if incoming == Some("") then stored
    else if stored == None || stored == Some("") then incoming
    else if incoming.Some? && Contains(stored.value, incoming.value) then stored
    else if incoming == None then None
    else Some(stored.value + "\n" + incoming.value)
  }

  /** A null incoming evidence erases the stored log: the log is not
      append-only as written. */
  lemma MergeAsWrittenErasesLog()
    ensures MergeAsWritten(Some("X"), None) == None
    ensures !(Log(Some("X")) <= Log(MergeAsWritten(Some("X"), None)))
  {
  }

  /** The corrected merge: an incoming null is treated like an incoming "".
      The stored log (null read as "") is always a prefix of the result, and
      non-null incoming evidence always ends up inside the result. */
  function Merge(stored: Option<string>, incoming: Option<string>): (r: Option<string>)
    ensures Log(stored) <= Log(r)
    ensures incoming.Some? ==> Contains(Log(r), incoming.value)
    ensures stored.Some? ==> r.Some?
    ensures incoming == None || incoming == Some("") ==> r == stored
  {
    if incoming == None then stored
    else
      ContainsSuffix([], incoming.value);
      ContainsSuffix(Log(stored) + "\n", incoming.value);
      MergeAsWritten(stored, incoming)
  }

  /** Both merges agree whenever the incoming evidence is a string. */
  lemma MergeAgreesOnStrings(stored: Option<string>, incoming: string)
    ensures Merge(stored, Some(incoming)) == MergeAsWritten(stored, Some(incoming))
  {
  }

  /** The four cases of the Cypher `CASE`, for string evidence. */
  lemma MergeCases(stored: Option<string>, incoming: string)
    ensures incoming == "" ==> Merge(stored, Some(incoming)) == stored
    ensures incoming != "" && Log(stored) == "" ==> Merge(stored, Some(incoming)) == Some(incoming)
    ensures incoming != "" && Log(stored) != "" && Contains(Log(stored), incoming) ==>
              Merge(stored, Some(incoming)) == stored
    ensures incoming != "" && Log(stored) != "" && !Contains(Log(stored), incoming) ==>
              Merge(stored, Some(incoming)) == Some(Log(stored) + "\n" + incoming)
  {
  }

  /** The incoming evidence is already recorded in the stored log. */
  predicate Covers(stored: Option<string>, incoming: Option<string>) {
    incoming == None || incoming == Some("") || (stored.Some? && Contains(stored.value, incoming.value))
  }

  /** Merging evidence the log already records changes nothing. */
  lemma MergeCovered(stored: Option<string>, incoming: Option<string>)
    requires Covers(stored, incoming)
    ensures Merge(stored, incoming) == stored
  {
    if incoming.Some? && incoming.value != [] {
      ContainsNonEmpty(stored.value, incoming.value);
    }
  }

  /** After a merge the log records the incoming evidence, and it still
      records everything it recorded before. */
  lemma MergeKeepsCovering(stored: Option<string>, incoming: Option<string>, other: Option<string>)
    ensures Covers(Merge(stored, incoming), incoming)
    ensures Covers(stored, other) ==> Covers(Merge(stored, incoming), other)
  {
    var r := Merge(stored, incoming);
    if Covers(stored, other) && other.Some? && other.value != [] {
      var s := Log(stored);
      assert s + Log(r)[|s|..] == Log(r);
      ContainsExtend(s, other.value, Log(r)[|s|..]);
    }
  }

  /** Merging the same evidence twice is the same as merging it once. */
  lemma MergeIdempotent(stored: Option<string>, incoming: Option<string>)
    ensures Merge(Merge(stored, incoming), incoming) == Merge(stored, incoming)
  {
    MergeKeepsCovering(stored, incoming, incoming);
    MergeCovered(Merge(stored, incoming), incoming);
  }

  /** Worked example: "X" then "Y" gives "X\nY"; "X" twice stays "X". */
  lemma MergeExamples()
    ensures Merge(Some("X"), Some("Y")) == Some("X\nY")
    ensures Merge(Some("X"), Some("X")) == Some("X")
  {
    assert !Contains("X", "Y") by {
      assert "Y"[0] != "X"[0];
      assert "X"[1..] == [];
    }
    assert Contains("X", "X") by { assert "X" <= "X"; }
    assert "X" + "\n" + "Y" == "X\nY";
  }
}
