/** `QuickBooks_Status_Report::_prettyName`: turns an object name such as
    `InventoryItem` into a heading by inserting spaces. */
module Names {
  import opened Php

  /** What the loop makes of the original characters from index `j` on, once
      `spaces` spaces stand before them. The loop's bound is the original
      length, so the scan stops as soon as `j + spaces` reaches it; a space
      goes before every character `strtoupper` leaves unchanged, and the
      character after it is then passed over unexamined. */
  function PrettyFrom(s: string, j: nat, spaces: nat): string
    decreases |s| - j
  {
    if j >= |s| then ""
    else if j + spaces >= |s| then s[j..]
    else if UpperUnchanged(s[j]) then
      " " + [s[j]] + (if j + 1 < |s| then [s[j + 1]] + PrettyFrom(s, j + 2, spaces + 1) else "")
    else [s[j]] + PrettyFrom(s, j + 1, spaces)
  }

  /** The name `_prettyName` returns: the first character is never examined. */
  function PrettyNameOf(s: string): string {
    if |s| == 0 then "" else [s[0]] + PrettyFrom(s, 1, 0)
  }

  /** `r` is `s` with single spaces inserted, each directly before a
      character of `s` that is not a lower-case letter. */
  ghost predicate SpacesBeforeCaps(r: string, s: string)
    decreases |r|
  {
    if |s| == 0 then r == ""
    else if |r| == 0 then false
    else
      (r[0] == s[0] && SpacesBeforeCaps(r[1..], s[1..]))
      || (|r| >= 2 && r[0] == ' ' && r[1] == s[0] && UpperUnchanged(s[0]) && SpacesBeforeCaps(r[2..], s[1..]))
  }

  /** `r` keeps the first character of `s` in front and otherwise only adds
      single spaces before characters that are not lower-case letters. */
  ghost predicate SpacedName(r: string, s: string) {
    if |s| == 0 then r == "" else |r| > 0 && r[0] == s[0] && SpacesBeforeCaps(r[1..], s[1..])
  }

  lemma {:induction false} SpacesBeforeNone(s: string)
    ensures SpacesBeforeCaps(s, s)
    decreases |s|
  {
    if |s| > 0 {
      SpacesBeforeNone(s[1..]);
    }
  }

  lemma {:induction false} PrettyFromSpaced(s: string, j: nat, spaces: nat)
    requires j <= |s|
    ensures SpacesBeforeCaps(PrettyFrom(s, j, spaces), s[j..])
    decreases |s| - j
  {
    var r := PrettyFrom(s, j, spaces);
    if j == |s| {
    } else if j + spaces >= |s| {
      SpacesBeforeNone(s[j..]);
    } else if UpperUnchanged(s[j]) {
      assert s[j..][1..] == s[j + 1..];
      if j + 1 < |s| {
        PrettyFromSpaced(s, j + 2, spaces + 1);
        assert s[j + 1..][1..] == s[j + 2..];
        assert r[2..][1..] == PrettyFrom(s, j + 2, spaces + 1);
      } else {
        assert r[2..] == "";
      }
    } else {
      PrettyFromSpaced(s, j + 1, spaces);
      assert s[j..][1..] == s[j + 1..];
      assert r[1..] == PrettyFrom(s, j + 1, spaces);
    }
  }

  /** `_prettyName` only ever inserts single spaces, never in front of the
      first character, and only before characters that are not lower-case
      letters. */
  lemma PrettyNameSpaced(s: string)
    ensures SpacedName(PrettyNameOf(s), s)
  {
    if |s| > 0 {
      PrettyFromSpaced(s, 1, 0);
    }
  }

  lemma {:induction false} PrettyFromLower(s: string, j: nat)
    requires j <= |s|
    requires forall i :: j <= i < |s| ==> !UpperUnchanged(s[i])
    ensures PrettyFrom(s, j, 0) == s[j..]
    decreases |s| - j
  {
    if j < |s| {
      PrettyFromLower(s, j + 1);
      assert s[j..] == [s[j]] + s[j + 1..];
    }
  }

  /** A name whose characters after the first are all lower-case letters is
      returned unchanged. */
  lemma PrettyNameLower(s: string)
    requires forall i :: 1 <= i < |s| ==> !UpperUnchanged(s[i])
    ensures PrettyNameOf(s) == s
  {
    if |s| > 0 {
      PrettyFromLower(s, 1);
    }
  }

  /** Characters the loop never examines: the one after each insertion, and
      those pushed past the original length. */
  lemma PrettyNameExamples()
    ensures PrettyNameOf("ABC") == "A BC"
    ensures PrettyNameOf("AbcDeF") == "Abc DeF"
  {
    assert PrettyFrom("ABC", 1, 0) == " " + "B" + "C" + PrettyFrom("ABC", 3, 1);
    assert PrettyFrom("AbcDeF", 3, 0) == " " + "D" + "e" + PrettyFrom("AbcDeF", 5, 1);
    assert PrettyFrom("AbcDeF", 5, 1) == "F";
  }

  lemma UnfoldKeep(name: string, j: nat, spaces: nat)
    requires j + spaces < |name| && !UpperUnchanged(name[j])
    ensures PrettyFrom(name, j, spaces) == [name[j]] + PrettyFrom(name, j + 1, spaces)
  {
  }

  lemma UnfoldInsert(name: string, j: nat, spaces: nat)
    requires j + spaces < |name| && j + 1 < |name| && UpperUnchanged(name[j])
    ensures PrettyFrom(name, j, spaces) == [' ', name[j], name[j + 1]] + PrettyFrom(name, j + 2, spaces + 1)
  {
  }

  lemma UnfoldInsertLast(name: string, j: nat, spaces: nat)
    requires j + spaces < |name| && j + 1 == |name| && UpperUnchanged(name[j])
    ensures PrettyFrom(name, j, spaces) == [' ', name[j]]
  {
  }

  /** The suffix the loop has yet to examine starts with the original
      character at `j`. */
  lemma SuffixHead(p: string, name: string, i: nat, j: nat)
    requires i < |p| && j < |name| && p[i..] == name[j..]
    ensures p[i] == name[j] && p[i + 1..] == name[j + 1..]
  {
    assert p[i..][0] == p[i] && name[j..][0] == name[j];
    assert p[i + 1..] == p[i..][1..] && name[j + 1..] == name[j..][1..];
  }

  lemma Associative(a: string, b: string, c: string)
    ensures a + (b + c) == (a + b) + c
  {
  }

  /** Inserting a space at `i` shifts everything from `i` on by one. */
  lemma InsertSlices(p: string, q: string, i: nat, k: nat)
    requires i + k <= |p| && q == p[..i] + [' '] + p[i..]
    ensures q[i + 1 + k..] == p[i + k..]
    ensures q[..i + 1 + k] == p[..i] + [' '] + p[i..i + k]
  {
    var after, shifted := q[i + 1 + k..], p[i + k..];
    assert forall t :: 0 <= t < |shifted| ==> after[t] == shifted[t];
    var before, spaced := q[..i + 1 + k], p[..i] + [' '] + p[i..i + k];
    assert forall t :: 0 <= t < |spaced| ==> before[t] == spaced[t];
  }

  /** One step of the loop at a character it leaves alone. */
  lemma KeepStep(p: string, name: string, i: nat, j: nat, spaces: nat)
    requires i == j + spaces && i < |name| && |p| == |name| + spaces
    requires p[i..] == name[j..] && !UpperUnchanged(p[i])
    ensures p[i + 1..] == name[j + 1..]
    ensures p[..i] + PrettyFrom(name, j, spaces) == p[..i + 1] + PrettyFrom(name, j + 1, spaces)
  {
    SuffixHead(p, name, i, j);
    UnfoldKeep(name, j, spaces);
    assert p[..i + 1] == p[..i] + [name[j]];
    Associative(p[..i], [name[j]], PrettyFrom(name, j + 1, spaces));
  }

  /** One step of the loop at a character before which it inserts a space,
      when a character follows it. */
  lemma InsertStep(p: string, q: string, name: string, i: nat, j: nat, spaces: nat)
    requires i == j + spaces && i < |name| && j + 1 < |name| && |p| == |name| + spaces
    requires p[i..] == name[j..] && UpperUnchanged(p[i])
    requires q == p[..i] + [' '] + p[i..]
    ensures q[i + 3..] == name[j + 2..]
    ensures p[..i] + PrettyFrom(name, j, spaces) == q[..i + 3] + PrettyFrom(name, j + 2, spaces + 1)
  {
    SuffixHead(p, name, i, j);
    SuffixHead(p, name, i + 1, j + 1);
    InsertSlices(p, q, i, 2);
    assert p[i..i + 2] == [name[j], name[j + 1]];
    UnfoldInsert(name, j, spaces);
    Associative(p[..i], [' ', name[j], name[j + 1]], PrettyFrom(name, j + 2, spaces + 1));
    assert p[..i] + [' '] + [name[j], name[j + 1]] == p[..i] + [' ', name[j], name[j + 1]];
  }

  /** The same step at the last original character: nothing follows it. */
  lemma InsertLastStep(p: string, q: string, name: string, i: nat, j: nat, spaces: nat)
    requires i == j + spaces && i < |name| && j + 1 == |name| && |p| == |name| + spaces
    requires p[i..] == name[j..] && UpperUnchanged(p[i])
    requires q == p[..i] + [' '] + p[i..]
    ensures p[..i] + PrettyFrom(name, j, spaces) == q
  {
    SuffixHead(p, name, i, j);
    UnfoldInsertLast(name, j, spaces);
    assert p[i..] == [name[j]];
    assert p[..i] + [' ', name[j]] == p[..i] + [' '] + [name[j]];
  }

  /** The loop's state after it has examined the original characters
      before `j`, having inserted `spaces` spaces: what is left of the
      string is still the original from `j` on, and the result is settled
      up to `i`. */
  ghost predicate Tracks(name: string, pretty: string, i: nat, j: nat, spaces: nat) {
    && i == j + spaces && 1 <= j <= |name| + 1
    && |pretty| == |name| + spaces
    && (j <= |name| ==> pretty[i..] == name[j..] && PrettyNameOf(name) == pretty[..i] + PrettyFrom(name, j, spaces))
    && (j > |name| ==> PrettyNameOf(name) == pretty)
  }

  lemma TracksStart(name: string)
    ensures Tracks(name, name, 1, 1, 0)
  {
    if |name| > 0 {
      assert name == name[..1] + name[1..];
    }
  }

  lemma TracksKeep(name: string, pretty: string, i: nat, j: nat, spaces: nat)
    requires Tracks(name, pretty, i, j, spaces) && i < |name| && !UpperUnchanged(pretty[i])
    ensures Tracks(name, pretty, i + 1, j + 1, spaces)
  {
    KeepStep(pretty, name, i, j, spaces);
  }

  lemma TracksInsert(name: string, pretty: string, i: nat, j: nat, spaces: nat)
    requires Tracks(name, pretty, i, j, spaces) && i < |name| && UpperUnchanged(pretty[i])
    ensures Tracks(name, pretty[..i] + " " + pretty[i..], i + 3, j + 2, spaces + 1)
  {
    var inserted := pretty[..i] + " " + pretty[i..];
    if j + 1 < |name| {
      InsertStep(pretty, inserted, name, i, j, spaces);
    } else {
      InsertLastStep(pretty, inserted, name, i, j, spaces);
    }
  }

  lemma TracksDone(name: string, pretty: string, i: nat, j: nat, spaces: nat)
    requires Tracks(name, pretty, i, j, spaces) && i >= |name|
    ensures pretty == PrettyNameOf(name)
  {
    if j <= |name| {
      assert pretty == pretty[..i] + pretty[i..];
    }
  }

  /** `_prettyName`: the loop of lines 330-338 on a copy of the name. */
  method PrettyName(name: string) returns (pretty: string)
    ensures pretty == PrettyNameOf(name)
  {
    pretty := name;
    var length := |name|;
    var i := 1;
    ghost var j := 1;
    ghost var spaces := 0;
    TracksStart(name);
    while i < length
      invariant Tracks(name, pretty, i, j, spaces)
      decreases length - i
    {
      if UpperUnchanged(pretty[i]) {
        TracksInsert(name, pretty, i, j, spaces);
        pretty := pretty[..i] + " " + pretty[i..];
        i := i + 2;
        j, spaces := j + 2, spaces + 1;
      } else {
        TracksKeep(name, pretty, i, j, spaces);
        j := j + 1;
      }
      i := i + 1;
    }
    TracksDone(name, pretty, i, j, spaces);
  }
}
