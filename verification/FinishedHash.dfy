/** The running transcript hash and the Finished sums (e2ewebsocket/finished_hash.go). */
module FinishedHash {
  import opened Common
  import opened Hmac
  import Prf

  /** Twelve bytes derived from the master secret with an identity as label and the hash of
      the transcript as seed. */
  ghost function Sum(alg: Algorithm, master: Bytes, name: string, transcript: Bytes): (sum: Bytes)
    requires Lawful(alg)
    ensures |sum| == 12
  {
    Prf.Derive(alg, master, Prf.Ascii(name), alg.digest(transcript), Prf.FINISHED_VERIFY_LENGTH)
  }

  /** Written out: the first twelve bytes of HMAC(master, HMAC(master, s) + s), where s is the
      identity followed by the hash of the transcript. */
  lemma SumBytes(alg: Algorithm, master: Bytes, name: string, transcript: Bytes)
    requires Lawful(alg) && alg.size >= 12
    ensures var s := Prf.Ascii(name) + alg.digest(transcript);
            var mac := Mac(alg, master, Mac(alg, master, s) + s);
            |mac| == alg.size && Sum(alg, master, name, transcript) == mac[..12]
  {
    hide Mac, Prf.Ascii, Prf.Derive;
    var s := Prf.Ascii(name) + alg.digest(transcript);
    Prf.DerivedBytes(alg, master, Prf.Ascii(name), alg.digest(transcript), 12);
    Prf.MacSize(alg, master, Mac(alg, master, s) + s);
  }

  /** Feeding one message more changes only the hashed transcript. */
  class FinishedHash {
    const alg: Algorithm
    const localLabel: string
    const remoteLabel: string
    const coreHash: Digest

    constructor (alg: Algorithm, localLabel: string, remoteLabel: string)
      ensures this.alg == alg && this.localLabel == localLabel && this.remoteLabel == remoteLabel
      ensures coreHash.alg == alg && coreHash.fed == [] && fresh(coreHash)
    {
      this.alg, this.localLabel, this.remoteLabel := alg, localLabel, remoteLabel;
      coreHash := new Digest(alg);
    }

    method Write(msg: Bytes)
      modifies coreHash
      ensures coreHash.fed == old(coreHash.fed) + msg
    {
      coreHash.Write(msg);
    }

    method LocalSum(master: Bytes) returns (sum: Bytes)
      requires Lawful(alg) && coreHash.alg == alg
      ensures sum == Sum(alg, master, localLabel, coreHash.fed)
    {
      var seed := coreHash.Sum([]);
      assert seed == alg.digest(coreHash.fed);
      sum := Prf.PRF(alg, master, Prf.Ascii(localLabel), seed, 12);
    }

    method RemoteSum(master: Bytes) returns (sum: Bytes)
      requires Lawful(alg) && coreHash.alg == alg
      ensures sum == Sum(alg, master, remoteLabel, coreHash.fed)
    {
      var seed := coreHash.Sum([]);
      assert seed == alg.digest(coreHash.fed);
      sum := Prf.PRF(alg, master, Prf.Ascii(remoteLabel), seed, 12);
    }
  }

  /** Two peers that feed the same messages, whatever pieces they come in, expect of each other
      what each sends. */
  method BothSums(alg: Algorithm, own: string, other: string, a: seq<Bytes>, b: seq<Bytes>, master: Bytes)
    returns (sent: Bytes, expected: Bytes)
    requires Lawful(alg) && Joined(a) == Joined(b)
    ensures sent == expected == Sum(alg, master, own, Joined(a))
  {
    var here := new FinishedHash(alg, own, other);
    var there := new FinishedHash(alg, other, own);
    for i := 0 to |a|
      invariant here.coreHash.fed == Joined(a[..i]) && here.coreHash != there.coreHash && there.coreHash.fed == []
    {
      assert Front(a[..i + 1]) == a[..i] && Last(a[..i + 1]) == a[i];
      here.Write(a[i]);
    }
    assert a[..|a|] == a;
    for i := 0 to |b|
      invariant there.coreHash.fed == Joined(b[..i]) && here.coreHash.fed == Joined(a) && here.coreHash != there.coreHash
    {
      assert Front(b[..i + 1]) == b[..i] && Last(b[..i + 1]) == b[i];
      there.Write(b[i]);
    }
    assert b[..|b|] == b;
    sent := here.LocalSum(master);
    expected := there.RemoteSum(master);
  }

  function Joined(pieces: seq<Bytes>): Bytes {
    if pieces == [] then [] else Joined(Front(pieces)) + Last(pieces)
  }
}
