/** Filtering RTP header extensions: an extension offered both encrypted and plain keeps
    only its encrypted form (section 4 of RFC 6904).
 */
module RtpExtensions {

  datatype Extension = Extension(uri: string, id: int, encrypt: bool)

  predicate HasUri(xs: seq<Extension>, uri: string) {
    exists i :: 0 <= i < |xs| && xs[i].uri == uri
  }

  // ---------- what the code does ----------

  /** The filtered list after the first `n` extensions. */
  function FilteredTo(xs: seq<Extension>, n: nat): seq<Extension>
    requires n <= |xs|
  {
    if n == 0 then []
    else
      var filtered, x := FilteredTo(xs, n - 1), xs[n - 1];
      if x.encrypt || (!HasUri(xs[n..], x.uri) && !HasUri(filtered, x.uri)) then filtered + [x] else filtered
  }

  function Filtered(xs: seq<Extension>): seq<Extension> { FilteredTo(xs, |xs|) }

  method FindHeaderExtensionByUri(xs: seq<Extension>, uri: string) returns (k: int)
    ensures k == -1 ==> !HasUri(xs, uri)
    ensures k != -1 ==> 0 <= k < |xs| && xs[k].uri == uri && !HasUri(xs[..k], uri)
  {
    for i := 0 to |xs|
      invariant !HasUri(xs[..i], uri)
    {
      if xs[i].uri == uri {
        return i;
      }
    }
    return -1;
  }

  method FilterDuplicateNonEncrypted(xs: seq<Extension>) returns (filtered: seq<Extension>)
    ensures filtered == Filtered(xs)
  {
    filtered := [];
    for i := 0 to |xs|
      invariant filtered == FilteredTo(xs, i)
    {
      if xs[i].encrypt {
        filtered := filtered + [xs[i]];
        continue;
      }
      var later := FindHeaderExtensionByUri(xs[i + 1..], xs[i].uri);
      if later != -1 {
        continue;
      }
      var earlier := FindHeaderExtensionByUri(filtered, xs[i].uri);
      if earlier == -1 {
        filtered := filtered + [xs[i]];
      }
    }
  }

  // ---------- which extensions survive ----------

  /** No later extension has the same URI. */
  ghost predicate LastOfUri(xs: seq<Extension>, i: nat)
    requires i < |xs|
  {
    forall j :: i < j < |xs| ==> xs[j].uri != xs[i].uri
  }

  ghost predicate EncryptedBefore(xs: seq<Extension>, n: nat, uri: string)
    requires n <= |xs|
  {
    exists j :: 0 <= j < n && xs[j].uri == uri && xs[j].encrypt
  }

  /** Encrypted ones, and the last of a URI that is never encrypted. */
  ghost predicate Survives(xs: seq<Extension>, i: nat)
    requires i < |xs|
  {
    xs[i].encrypt || (LastOfUri(xs, i) && !EncryptedBefore(xs, i, xs[i].uri))
  }

  /** The survivors among the first `n`, in order. */
  ghost function Survivors(xs: seq<Extension>, n: nat): seq<Extension>
    requires n <= |xs|
  {
    if n == 0 then []
    else Survivors(xs, n - 1) + if Survives(xs, n - 1) then [xs[n - 1]] else []
  }

  lemma {:induction false} SurvivorsSound(xs: seq<Extension>, n: nat, y: Extension) returns (i: nat)
    requires n <= |xs| && y in Survivors(xs, n)
    ensures i < n && xs[i] == y && Survives(xs, i)
  {
    if y in Survivors(xs, n - 1) {
      i := SurvivorsSound(xs, n - 1, y);
    } else {
      i := n - 1;
    }
  }

  lemma {:induction false} SurvivorsComplete(xs: seq<Extension>, n: nat, i: nat)
    requires i < n <= |xs| && Survives(xs, i)
    ensures xs[i] in Survivors(xs, n)
  {
    if i < n - 1 {
      SurvivorsComplete(xs, n - 1, i);
    }
  }

  /** For the last extension of a URI, looking its URI up in the output so far tells whether
      it was encrypted before. */
  lemma LookupMeaning(xs: seq<Extension>, n: nat)
    requires n < |xs| && LastOfUri(xs, n)
    ensures HasUri(Survivors(xs, n), xs[n].uri) <==> EncryptedBefore(xs, n, xs[n].uri)
  {
    var ys := Survivors(xs, n);
    if HasUri(ys, xs[n].uri) {
      var k :| 0 <= k < |ys| && ys[k].uri == xs[n].uri;
      var i := SurvivorsSound(xs, n, ys[k]);
    }
    if EncryptedBefore(xs, n, xs[n].uri) {
      var j :| 0 <= j < n && xs[j].uri == xs[n].uri && xs[j].encrypt;
      SurvivorsComplete(xs, n, j);
      var k :| 0 <= k < |ys| && ys[k] == xs[j];
      assert ys[k].uri == xs[n].uri;
    }
  }

  lemma LaterMeaning(xs: seq<Extension>, n: nat)
    requires n < |xs|
    ensures !HasUri(xs[n + 1..], xs[n].uri) <==> LastOfUri(xs, n)
  {
    var rest := xs[n + 1..];
    assert forall j :: 0 <= j < |rest| ==> rest[j] == xs[n + 1 + j];
    assert forall j :: n < j < |xs| ==> xs[j] == rest[j - n - 1];
  }

  /** Looking at the rest of the input and at the output so far decides survival. */
  lemma DecisionMeaning(xs: seq<Extension>, n: nat)
    requires n < |xs|
    ensures Survives(xs, n) <==>
            xs[n].encrypt || (!HasUri(xs[n + 1..], xs[n].uri) && !HasUri(Survivors(xs, n), xs[n].uri))
  {
    LaterMeaning(xs, n);
    if LastOfUri(xs, n) {
      LookupMeaning(xs, n);
    }
  }

  /** The loop selects exactly the survivors, in order. */
  lemma {:induction false} FilteredAreSurvivors(xs: seq<Extension>, n: nat)
    requires n <= |xs|
    ensures FilteredTo(xs, n) == Survivors(xs, n)
  {
    if n > 0 {
      FilteredAreSurvivors(xs, n - 1);
      DecisionMeaning(xs, n - 1);
    }
  }

  // ---------- what the output promises ----------

  /** A plain extension is the only one of its URI. */
  ghost predicate Unmixed(ys: seq<Extension>) {
    forall k, l :: 0 <= k < l < |ys| && ys[k].uri == ys[l].uri ==> ys[k].encrypt && ys[l].encrypt
  }

  lemma {:induction false} SurvivorsUnmixed(xs: seq<Extension>, n: nat)
    requires n <= |xs|
    ensures Unmixed(Survivors(xs, n))
  {
    if n > 0 {
      SurvivorsUnmixed(xs, n - 1);
      var ys := Survivors(xs, n - 1);
      if Survives(xs, n - 1) {
        forall k | 0 <= k < |ys| && ys[k].uri == xs[n - 1].uri ensures ys[k].encrypt && xs[n - 1].encrypt {
          var i := SurvivorsSound(xs, n - 1, ys[k]);
        }
      }
    }
  }

  /** Some extension of every URI survives. */
  lemma SurvivorOf(xs: seq<Extension>, uri: string) returns (i: nat)
    requires HasUri(xs, uri)
    ensures i < |xs| && xs[i].uri == uri && Survives(xs, i)
  {
    if EncryptedBefore(xs, |xs|, uri) {
      i :| 0 <= i < |xs| && xs[i].uri == uri && xs[i].encrypt;
    } else {
      i := LastPosition(xs, uri, |xs|);
    }
  }

  lemma {:induction false} LastPosition(xs: seq<Extension>, uri: string, n: nat) returns (i: nat)
    requires n <= |xs| && exists j :: 0 <= j < n && xs[j].uri == uri
    ensures i < n && xs[i].uri == uri && forall j :: i < j < n ==> xs[j].uri != uri
  {
    if xs[n - 1].uri == uri {
      i := n - 1;
    } else {
      i := LastPosition(xs, uri, n - 1);
    }
  }

  /** Every encrypted extension stays, no URI is both plain and encrypted or plain twice, and
      no URI is lost or invented. */
  lemma FilteredMeaning(xs: seq<Extension>)
    ensures forall x :: x in xs && x.encrypt ==> x in Filtered(xs)
    ensures forall x :: x in Filtered(xs) ==> x in xs
    ensures Unmixed(Filtered(xs))
    ensures forall uri :: HasUri(xs, uri) <==> HasUri(Filtered(xs), uri)
  {
    var ys := Filtered(xs);
    FilteredAreSurvivors(xs, |xs|);
    SurvivorsUnmixed(xs, |xs|);
    forall x | x in xs && x.encrypt ensures x in ys {
      var i :| 0 <= i < |xs| && xs[i] == x;
      SurvivorsComplete(xs, |xs|, i);
    }
    forall x | x in ys ensures x in xs {
      var i := SurvivorsSound(xs, |xs|, x);
    }
    forall uri ensures HasUri(xs, uri) <==> HasUri(ys, uri) {
      SameUris(xs, uri);
    }
  }

  lemma SameUris(xs: seq<Extension>, uri: string)
    ensures HasUri(xs, uri) <==> HasUri(Survivors(xs, |xs|), uri)
  {
    var ys := Survivors(xs, |xs|);
    if HasUri(xs, uri) {
      var i := SurvivorOf(xs, uri);
      SurvivorsComplete(xs, |xs|, i);
      var k :| 0 <= k < |ys| && ys[k] == xs[i];
      assert ys[k].uri == uri;
    }
    if HasUri(ys, uri) {
      var k :| 0 <= k < |ys| && ys[k].uri == uri;
      var i := SurvivorsSound(xs, |xs|, ys[k]);
      assert xs[i].uri == uri;
    }
  }

  lemma {:induction false} UnmixedAllSurvive(xs: seq<Extension>, n: nat)
    requires n <= |xs| && Unmixed(xs)
    ensures Survivors(xs, n) == xs[..n]
  {
    if n > 0 {
      UnmixedAllSurvive(xs, n - 1);
      assert xs[..n] == xs[..n - 1] + [xs[n - 1]];
    }
  }

  /** Filtering again changes nothing. */
  lemma FilteredTwice(xs: seq<Extension>)
    ensures Filtered(Filtered(xs)) == Filtered(xs)
  {
    var ys := Filtered(xs);
    FilteredMeaning(xs);
    FilteredAreSurvivors(ys, |ys|);
    UnmixedAllSurvive(ys, |ys|);
    assert ys[..|ys|] == ys;
  }
}
