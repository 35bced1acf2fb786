/** Which blobs of a sidecar a submitted block takes, and what its length check guarantees. */
module Blobs {
  import opened Prelude
  import opened Tables

  /** The blobs whose versioned hash is asked for, in sidecar order. */
  function SelectBlobs(sidecar: seq<(Bytes, Bytes)>, hashes: seq<U256>, versionedHash: Bytes -> U256): seq<Bytes> {
    if sidecar == [] then []
    else
      (if versionedHash(sidecar[0].1) in hashes then [sidecar[0].0] else [])
      + SelectBlobs(sidecar[1..], hashes, versionedHash)
  }

  function HashesOf(sidecar: seq<(Bytes, Bytes)>, versionedHash: Bytes -> U256): (hs: seq<U256>)
    ensures |hs| == |sidecar|
  {
    if sidecar == [] then [] else [versionedHash(sidecar[0].1)] + HashesOf(sidecar[1..], versionedHash)
  }

  predicate Distinct<T(==)>(s: seq<T>) {
    forall i, j :: 0 <= i < j < |s| ==> s[i] != s[j]
  }

  function Elements<T>(s: seq<T>): set<T> {
    set x | x in s
  }

  lemma {:induction false} ElementCount<T>(s: seq<T>)
    ensures |Elements(s)| <= |s|
    ensures |Elements(s)| == |s| <==> Distinct(s)
  {
    if s == [] {
    } else {
      var rest := s[1..];
      ElementCount(rest);
      if s[0] in rest {
        assert Elements(s) == Elements(rest);
        var j :| 0 <= j < |rest| && rest[j] == s[0];
        assert s[j + 1] == s[0];
      } else {
        assert Elements(s) == Elements(rest) + {s[0]};
        if Distinct(rest) {
          forall i, j | 0 <= i < j < |s| ensures s[i] != s[j] {
            assert s[j] == rest[j - 1];
            if i > 0 { assert s[i] == rest[i - 1]; }
          }
        } else {
          var i, j :| 0 <= i < j < |rest| && rest[i] == rest[j];
          assert s[i + 1] == s[j + 1];
        }
      }
    }
  }

  function CountIn(hs: seq<U256>, wanted: set<U256>): nat {
    if hs == [] then 0 else (if hs[0] in wanted then 1 else 0) + CountIn(hs[1..], wanted)
  }

  lemma {:induction false} SelectedCount(sidecar: seq<(Bytes, Bytes)>, hashes: seq<U256>, versionedHash: Bytes -> U256)
    ensures |SelectBlobs(sidecar, hashes, versionedHash)| == CountIn(HashesOf(sidecar, versionedHash), Elements(hashes))
  {
    if sidecar == [] {
    } else {
      assert HashesOf(sidecar, versionedHash)[1..] == HashesOf(sidecar[1..], versionedHash);
      SelectedCount(sidecar[1..], hashes, versionedHash);
    }
  }

  /** A requested blob stands in the selection behind exactly the requested blobs before it in the sidecar. */
  lemma {:induction false} SelectedAtRank(
    sidecar: seq<(Bytes, Bytes)>, hashes: seq<U256>, versionedHash: Bytes -> U256, i: nat)
    requires i < |sidecar| && versionedHash(sidecar[i].1) in hashes
    ensures var rank := CountIn(HashesOf(sidecar, versionedHash)[..i], Elements(hashes));
      var selected := SelectBlobs(sidecar, hashes, versionedHash);
      rank < |selected| && selected[rank] == sidecar[i].0
  {
    var hs, wanted := HashesOf(sidecar, versionedHash), Elements(hashes);
    if i == 0 {
      assert hs[..0] == [];
    } else {
      var first, later := versionedHash(sidecar[0].1), HashesOf(sidecar[1..], versionedHash)[..i - 1];
      var rest := SelectBlobs(sidecar[1..], hashes, versionedHash);
      SelectedAtRank(sidecar[1..], hashes, versionedHash, i - 1);
      assert hs[..i] == [first] + later;
      assert hs[..i][1..] == later;
      assert CountIn(hs[..i], wanted) == (if first in wanted then 1 else 0) + CountIn(later, wanted);
      assert SelectBlobs(sidecar, hashes, versionedHash) == (if first in hashes then [sidecar[0].0] else []) + rest;
    }
  }

  lemma TailIsDistinct(hs: seq<U256>)
    requires Distinct(hs) && hs != []
    ensures Distinct(hs[1..]) && hs[0] !in hs[1..]
  {
    var rest := hs[1..];
    forall i, j | 0 <= i < j < |rest| ensures rest[i] != rest[j] {
      assert hs[i + 1] != hs[j + 1];
    }
    forall j | 0 <= j < |rest| ensures rest[j] != hs[0] {
      assert hs[j + 1] == rest[j];
    }
  }

  lemma {:induction false} CountOfDistinct(hs: seq<U256>, wanted: set<U256>)
    requires Distinct(hs)
    ensures CountIn(hs, wanted) == |wanted * Elements(hs)|
  {
    if hs == [] {
      assert wanted * Elements(hs) == {};
    } else {
      TailIsDistinct(hs);
      CountOfDistinct(hs[1..], wanted);
      var commonRest := wanted * Elements(hs[1..]);
      assert hs[0] !in commonRest;
      assert wanted * Elements(hs) == if hs[0] in wanted then commonRest + {hs[0]} else commonRest;
    }
  }

  /** The hashes among `hs` that are wanted, in order. */
  function Wanted(hs: seq<U256>, wanted: set<U256>): seq<U256> {
    if hs == [] then [] else (if hs[0] in wanted then [hs[0]] else []) + Wanted(hs[1..], wanted)
  }

  lemma {:induction false} WantedElements(hs: seq<U256>, wanted: set<U256>)
    ensures |Wanted(hs, wanted)| == CountIn(hs, wanted)
    ensures Elements(Wanted(hs, wanted)) == wanted * Elements(hs)
  {
    if hs == [] {
      assert wanted * Elements(hs) == {};
    } else {
      var rest := Wanted(hs[1..], wanted);
      WantedElements(hs[1..], wanted);
      assert Elements(hs) == {hs[0]} + Elements(hs[1..]);
      if hs[0] in wanted {
        assert Wanted(hs, wanted) == [hs[0]] + rest;
        assert Elements([hs[0]] + rest) == {hs[0]} + Elements(rest);
      } else {
        assert Wanted(hs, wanted) == rest;
        assert wanted * Elements(hs) == wanted * Elements(hs[1..]);
      }
    }
  }

  /** The requested hashes are distinct and each is in the sidecar. */
  predicate AllFound(sidecar: seq<(Bytes, Bytes)>, hashes: seq<U256>, versionedHash: Bytes -> U256) {
    Distinct(hashes) && Elements(hashes) <= Elements(HashesOf(sidecar, versionedHash))
  }

  /** No requested hash occurs twice in the sidecar. */
  predicate NoneRepeated(sidecar: seq<(Bytes, Bytes)>, hashes: seq<U256>, versionedHash: Bytes -> U256) {
    Distinct(Wanted(HashesOf(sidecar, versionedHash), Elements(hashes)))
  }

  /**
   What the length check tells, exactly: if it passes, all requested blobs were found if and
   only if no requested hash occurs twice in the sidecar; and if none does, it passes if and
   only if they were.
   */
  lemma LengthCheckExactly(sidecar: seq<(Bytes, Bytes)>, hashes: seq<U256>, versionedHash: Bytes -> U256)
    ensures var passes := |SelectBlobs(sidecar, hashes, versionedHash)| == |hashes|;
      && (passes ==> (AllFound(sidecar, hashes, versionedHash) <==> NoneRepeated(sidecar, hashes, versionedHash)))
      && (NoneRepeated(sidecar, hashes, versionedHash) ==> (passes <==> AllFound(sidecar, hashes, versionedHash)))
  {
    var hs := HashesOf(sidecar, versionedHash);
    var wanted, present := Elements(hashes), Elements(hs);
    SelectedCount(sidecar, hashes, versionedHash);
    WantedElements(hs, wanted);
    ElementCount(Wanted(hs, wanted));
    ElementCount(hashes);
    CommonCount(wanted, present);
  }

  lemma CommonCount(wanted: set<U256>, present: set<U256>)
    ensures |wanted * present| <= |wanted|
    ensures |wanted * present| == |wanted| <==> wanted <= present
  {
    assert wanted == wanted * present + (wanted - present);
    assert |wanted| == |wanted * present| + |wanted - present|;
    if wanted <= present { assert wanted * present == wanted; }
  }

  lemma {:induction false} WantedOfDistinct(hs: seq<U256>, wanted: set<U256>)
    requires Distinct(hs)
    ensures Distinct(Wanted(hs, wanted))
  {
    WantedElements(hs, wanted);
    CountOfDistinct(hs, wanted);
    ElementCount(Wanted(hs, wanted));
  }

  /** In particular the check is exact when the sidecar's versioned hashes are distinct. */
  lemma BlobLengthCheck(sidecar: seq<(Bytes, Bytes)>, hashes: seq<U256>, versionedHash: Bytes -> U256)
    requires Distinct(HashesOf(sidecar, versionedHash))
    ensures |SelectBlobs(sidecar, hashes, versionedHash)| == |hashes| <==> AllFound(sidecar, hashes, versionedHash)
  {
    WantedOfDistinct(HashesOf(sidecar, versionedHash), Elements(hashes));
    LengthCheckExactly(sidecar, hashes, versionedHash);
  }

  /** With a blob listed twice the check passes although a requested hash is missing. */
  lemma RepeatedBlobFoolsLengthCheck(blob: (Bytes, Bytes), missing: U256, versionedHash: Bytes -> U256)
    requires missing != versionedHash(blob.1)
    ensures var hashes := [versionedHash(blob.1), missing];
      && |SelectBlobs([blob, blob], hashes, versionedHash)| == |hashes|
      && missing !in HashesOf([blob, blob], versionedHash)
  {
    var hashes := [versionedHash(blob.1), missing];
    assert [blob, blob][1..] == [blob] && [blob][1..] == [];
    assert versionedHash(blob.1) == hashes[0];
    assert SelectBlobs([blob], hashes, versionedHash) == [blob.0];
  }
}
