/**
 * Editing the lines of a `.env` file. Reading and writing the file are left
 * to the caller: the lines come in and go out as a sequence, as
 * `readlines()` gives them and `writelines` writes them back. Every line but
 * possibly the last ends in a newline; a last line without one runs into a
 * line appended after it once the file is written.
 */
module EnvFunctions {
  import opened Wrappers
  import opened Text

  /** The line written for `key`: `f"{key}={value}\n"`. */
  function EnvLine(key: string, value: string): string {
    key + "=" + value + "\n"
  }

  /** The line assigns `key`: it starts with `key + "="` (so `KEYX=1` does not assign `KEY`). */
  predicate Assigns(line: string, key: string) {
    StartsWith(line, key + "=")
  }

  lemma EnvLineAssigns(key: string, value: string)
    ensures Assigns(EnvLine(key, value), key)
  {
    assert EnvLine(key, value)[..|key| + 1] == key + "=";
  }

  /** Line `i` is the first line that assigns `key`. */
  predicate FirstAssigning(lines: seq<string>, key: string, i: nat) {
    i < |lines| && Assigns(lines[i], key) && forall j :: 0 <= j < i ==> !Assigns(lines[j], key)
  }

  /** The first line that assigns `key`, if any. */
  function FirstAssignment(lines: seq<string>, key: string): (r: Option<nat>)
    ensures r.Some? ==> FirstAssigning(lines, key, r.value)
    ensures r.None? <==> forall j :: 0 <= j < |lines| ==> !Assigns(lines[j], key)
    decreases |lines|
  {
    if lines == [] then None
    else if Assigns(lines[0], key) then Some(0)
    else match FirstAssignment(lines[1..], key)
      case None =>
        assert forall j :: 1 <= j < |lines| ==> lines[j] == lines[1..][j - 1];
        None
      case Some(i) => Some(i + 1)
  }

  /**
   * The lines after `upsert_env_var`: the first line assigning `key` is
   * replaced, or a new line is appended when none does.
   */
  function Upserted(lines: seq<string>, key: string, value: string): (r: seq<string>)
    ensures |lines| <= |r| <= |lines| + 1
    ensures forall j :: 0 <= j < |lines| && !Assigns(lines[j], key) ==> r[j] == lines[j]
    ensures (forall j :: 0 <= j < |lines| ==> !Assigns(lines[j], key)) ==> r == lines + [EnvLine(key, value)]
    ensures forall i: nat :: FirstAssigning(lines, key, i) ==> r == lines[i := EnvLine(key, value)]
  {
    match FirstAssignment(lines, key)
    case Some(i) => lines[i := EnvLine(key, value)]
    case None => lines + [EnvLine(key, value)]
  }

  /** `upsert_env_var` on the lines of the file: overwrite in place and stop, or append. */
  method UpsertEnvVar(lines: seq<string>, key: string, value: string) returns (updated: seq<string>)
    ensures updated == Upserted(lines, key, value)
  {
    updated := lines;
    var keyExists := false;
    var i := 0;
    while i < |updated|
      invariant 0 <= i <= |updated| && updated == lines && !keyExists
      invariant forall j :: 0 <= j < i ==> !Assigns(lines[j], key)
    {
      if Assigns(updated[i], key) {
        updated := updated[i := EnvLine(key, value)];
        keyExists := true;
        break;
      }
      i := i + 1;
    }
    if !keyExists {
      updated := updated + [EnvLine(key, value)];
    }
  }

  /**
   * After an upsert the first line assigning `key` assigns it `value`: it is
   * the line that was replaced, or the appended one.
   */
  lemma UpsertedAssigns(lines: seq<string>, key: string, value: string)
    ensures var r := Upserted(lines, key, value);
      FirstAssignment(r, key) == Some(FirstAssignment(lines, key).GetOr(|lines|)) &&
      r[FirstAssignment(lines, key).GetOr(|lines|)] == EnvLine(key, value)
  {
    EnvLineAssigns(key, value);
    var r := Upserted(lines, key, value);
    match FirstAssignment(lines, key)
    case Some(i) =>
      assert r == lines[i := EnvLine(key, value)];
      assert forall j :: 0 <= j < i ==> r[j] == lines[j];
      assert FirstAssigning(r, key, i);
    case None =>
      assert r == lines + [EnvLine(key, value)];
      assert forall j :: 0 <= j < |lines| ==> r[j] == lines[j];
      assert FirstAssigning(r, key, |lines|);
  }

  /** Upserting the same key and value twice gives the same lines as upserting once. */
  lemma UpsertIdempotent(lines: seq<string>, key: string, value: string)
    ensures Upserted(Upserted(lines, key, value), key, value) == Upserted(lines, key, value)
  {
    UpsertedAssigns(lines, key, value);
  }

  /** The lines after `del_env_var`: those not assigning `key`, in their order. */
  function DelEnvVar(lines: seq<string>, key: string): (r: seq<string>)
    ensures |r| <= |lines|
    ensures forall j :: 0 <= j < |r| ==> !Assigns(r[j], key)
    ensures forall line :: line in r ==> line in lines
    ensures forall j :: 0 <= j < |lines| && !Assigns(lines[j], key) ==> lines[j] in r
    decreases |lines|
  {
    if lines == [] then []
    else
      var rest := DelEnvVar(lines[1..], key);
      assert forall j :: 1 <= j < |lines| ==> lines[j] == lines[1..][j - 1];
      (if Assigns(lines[0], key) then [] else [lines[0]]) + rest
  }

  /** Deleting from a concatenation deletes from each part: the kept lines keep their order. */
  lemma {:induction false} DelAppend(a: seq<string>, b: seq<string>, key: string)
    ensures DelEnvVar(a + b, key) == DelEnvVar(a, key) + DelEnvVar(b, key)
    decreases |a|
  {
    if a == [] {
      assert a + b == b;
    } else {
      assert (a + b)[0] == a[0] && (a + b)[1..] == a[1..] + b;
      DelAppend(a[1..], b, key);
    }
  }

  /** Lines that do not assign `key` are left exactly as they were. */
  lemma {:induction false} DelNothing(lines: seq<string>, key: string)
    requires forall j :: 0 <= j < |lines| ==> !Assigns(lines[j], key)
    ensures DelEnvVar(lines, key) == lines
    decreases |lines|
  {
    if lines != [] {
      DelNothing(lines[1..], key);
    }
  }

  /** Deleting twice is deleting once. */
  lemma DelIdempotent(lines: seq<string>, key: string)
    ensures DelEnvVar(DelEnvVar(lines, key), key) == DelEnvVar(lines, key)
  {
    DelNothing(DelEnvVar(lines, key), key);
  }

  /** Deleting after an upsert of the same key leaves what deleting alone leaves. */
  lemma DelAfterUpsert(lines: seq<string>, key: string, value: string)
    ensures DelEnvVar(Upserted(lines, key, value), key) == DelEnvVar(lines, key)
  {
    EnvLineAssigns(key, value);
    var line := EnvLine(key, value);
    assert DelEnvVar([line], key) == [];
    match FirstAssignment(lines, key)
    case Some(i) =>
      assert DelEnvVar([lines[i]], key) == [];
      assert lines == lines[..i] + [lines[i]] + lines[i + 1..];
      assert Upserted(lines, key, value) == lines[..i] + [line] + lines[i + 1..];
      DelAppend(lines[..i] + [lines[i]], lines[i + 1..], key);
      DelAppend(lines[..i], [lines[i]], key);
      DelAppend(lines[..i] + [line], lines[i + 1..], key);
      DelAppend(lines[..i], [line], key);
    case None =>
      DelAppend(lines, [line], key);
  }
}
