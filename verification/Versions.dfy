/** Policy versions: a counter per connector that moves exactly when the hash of the compiled policy does. */
module Versions {
  import opened Options

  datatype VersionRow = VersionRow(version: nat, compiledAt: string, hash: Option<string>)

  type Rows = map<string, VersionRow>

  function NextVersion(rows: Rows, connector: string, hash: string): nat {
    if connector !in rows then 1
    else
      var row := rows[connector];
      if row.version == 0 || row.hash != Some(hash) then row.version + 1 else row.version
  }

  class VersionTable {
    var rows: Rows

    constructor ()
      ensures rows == map[]
    {
      rows := map[];
    }

    method PolicyVersion(connector: string, hash: string, compiledAt: string) returns (version: nat)
      modifies this
      ensures version == NextVersion(old(rows), connector, hash)
      ensures rows == old(rows)[connector := VersionRow(version, compiledAt, Some(hash))]
    {
      version := 0;
      var existing: Option<string> := None;
      if connector in rows {
        version, existing := rows[connector].version, rows[connector].hash;
      }
      if version == 0 || existing.None? || existing.value != hash {
        version := version + 1;
      }
      rows := rows[connector := VersionRow(version, compiledAt, Some(hash))];
    }
  }

  // ---------- Runs of compilations, interleaved over connectors ----------

  datatype Compilation = Compilation(connector: string, hash: string, compiledAt: string)

  function RowsAfter(run: seq<Compilation>): Rows {
    if run == [] then map[]
    else
      var before, c := RowsAfter(run[..|run| - 1]), run[|run| - 1];
      before[c.connector := VersionRow(NextVersion(before, c.connector, c.hash), c.compiledAt, Some(c.hash))]
  }

  /** The version handed out by the k-th compilation of the run. */
  function Issued(run: seq<Compilation>, k: nat): nat
    requires k < |run|
  {
    NextVersion(RowsAfter(run[..k]), run[k].connector, run[k].hash)
  }

  function Hashes(run: seq<Compilation>, connector: string): seq<string> {
    if run == [] then []
    else
      var last := run[|run| - 1];
      var before := Hashes(run[..|run| - 1], connector);
      if last.connector == connector then before + [last.hash] else before
  }

  /** The number of maximal stretches of equal neighbours. */
  function Stretches(hashes: seq<string>): nat {
    var n := |hashes|;
    if n == 0 then 0
    else Stretches(hashes[..n - 1]) + if n == 1 || hashes[n - 1] != hashes[n - 2] then 1 else 0
  }

  lemma {:induction false} StretchesPositive(hashes: seq<string>)
    requires hashes != []
    ensures Stretches(hashes) > 0
  {
    if |hashes| > 1 {
      StretchesPositive(hashes[..|hashes| - 1]);
    }
  }

  /** A connector's row counts the stretches of its own hashes; other connectors do not enter into it. */
  lemma {:induction false} RowCountsStretches(run: seq<Compilation>, connector: string)
    ensures var hashes := Hashes(run, connector);
            && (connector in RowsAfter(run) <==> hashes != [])
            && (hashes != [] ==> RowsAfter(run)[connector].version == Stretches(hashes)
                                 && RowsAfter(run)[connector].hash == Some(hashes[|hashes| - 1]))
  {
    if run != [] {
      var before := run[..|run| - 1];
      RowCountsStretches(before, connector);
      var c, earlier := run[|run| - 1], Hashes(before, connector);
      if c.connector == connector {
        assert (earlier + [c.hash])[..|earlier|] == earlier;
        if earlier != [] {
          StretchesPositive(earlier);
        }
      }
    }
  }

  /** Whatever rows a table starts with, the versions it hands out are positive. */
  lemma VersionsPositive(rows: Rows, connector: string, hash: string)
    ensures NextVersion(rows, connector, hash) > 0
  {
  }

  /** A connector's row tells when it was last compiled. */
  lemma {:induction false} RowTellsWhen(run: seq<Compilation>, k: nat)
    requires k < |run| && forall i :: k < i < |run| ==> run[i].connector != run[k].connector
    ensures run[k].connector in RowsAfter(run) && RowsAfter(run)[run[k].connector].compiledAt == run[k].compiledAt
  {
    var n := |run| - 1;
    if k < n {
      RowTellsWhen(run[..n], k);
    }
  }

  /** Every version handed out is the number of stretches of equal hashes its connector has seen so far. */
  lemma VersionCountsStretches(run: seq<Compilation>, k: nat)
    requires k < |run|
    ensures Issued(run, k) == Stretches(Hashes(run[..k + 1], run[k].connector))
  {
    RowCountsStretches(run[..k + 1], run[k].connector);
    assert run[..k + 1][..k] == run[..k];
  }

  lemma {:induction false} HashesExtend(run: seq<Compilation>, i: nat, j: nat, connector: string)
    requires i <= j <= |run|
    ensures Hashes(run[..i], connector) <= Hashes(run[..j], connector)
  {
    if i < j {
      HashesExtend(run, i, j - 1, connector);
      assert run[..j][..j - 1] == run[..j - 1];
    }
  }

  predicate AllFrom(hashes: seq<string>, k: nat, h: string) {
    forall i :: k <= i < |hashes| ==> hashes[i] == h
  }

  /** Growing a history never lowers the count, and leaves it alone exactly when nothing changed. */
  lemma {:induction false} StretchesGrow(a: seq<string>, b: seq<string>)
    requires a != [] && a <= b
    ensures Stretches(a) <= Stretches(b)
    ensures Stretches(a) == Stretches(b) <==> AllFrom(b, |a| - 1, b[|b| - 1])
  {
    if |a| == |b| {
      assert a == b;
    } else {
      var c, n := b[..|b| - 1], |b|;
      StretchesGrow(a, c);
      assert Stretches(b) == Stretches(c) + if b[n - 1] != b[n - 2] then 1 else 0;
      AllFromSnoc(c, |a| - 1, b[n - 1], b[n - 1]);
      assert b == c + [b[n - 1]];
    }
  }

  /** Every compilation of the connector at positions i to n - 1 had hash h. */
  predicate SameHash(run: seq<Compilation>, i: nat, n: nat, connector: string, h: string)
    requires n <= |run|
  {
    forall k :: i <= k < n && run[k].connector == connector ==> run[k].hash == h
  }

  /**
   For one connector versions never go down, and two compilations share a version exactly when every
   compilation of that connector from the first to the second had the same hash.
   */
  lemma VersionsTrackHashes(run: seq<Compilation>, i: nat, j: nat)
    requires i <= j < |run| && run[i].connector == run[j].connector
    ensures Issued(run, i) <= Issued(run, j)
    ensures Issued(run, i) == Issued(run, j)
       <==> SameHash(run, i, j + 1, run[i].connector, run[j].hash)
  {
    hide Issued, Hashes, Stretches;
    var c := run[i].connector;
    var a, b := Hashes(run[..i + 1], c), Hashes(run[..j + 1], c);
    VersionCountsStretches(run, i);
    VersionCountsStretches(run, j);
    HashesExtend(run, i + 1, j + 1, c);
    LastHash(run, i);
    LastHash(run, j);
    StretchesGrow(a, b);
    BetweenHashes(run, i, j + 1, run[j].hash);
  }

  lemma LastHash(run: seq<Compilation>, k: nat)
    requires k < |run|
    ensures var hashes := Hashes(run[..k + 1], run[k].connector);
            hashes != [] && hashes[|hashes| - 1] == run[k].hash
  {
  }

  /** The hashes a connector adds from position i on all equal h exactly when its compilations there do. */
  lemma {:induction false} BetweenHashes(run: seq<Compilation>, i: nat, n: nat, h: string)
    requires i < n <= |run|
    ensures var a, b := Hashes(run[..i + 1], run[i].connector), Hashes(run[..n], run[i].connector);
            a != [] && |a| <= |b| && (AllFrom(b, |a| - 1, h) <==> SameHash(run, i, n, run[i].connector, h))
  {
    LastHash(run, i);
    var c := run[i].connector;
    var a, b := Hashes(run[..i + 1], c), Hashes(run[..n], c);
    if n > i + 1 {
      BetweenHashes(run, i, n - 1, h);
      assert run[..n][..n - 1] == run[..n - 1];
      var b' := Hashes(run[..n - 1], c);
      assert SameHash(run, i, n, c, h) <==>
        SameHash(run, i, n - 1, c, h) && (run[n - 1].connector == c ==> run[n - 1].hash == h);
      if run[n - 1].connector == c {
        AllFromSnoc(b', |a| - 1, run[n - 1].hash, h);
      }
    }
  }

  lemma AllFromSnoc(hashes: seq<string>, k: nat, x: string, h: string)
    requires k <= |hashes|
    ensures AllFrom(hashes + [x], k, h) <==> AllFrom(hashes, k, h) && x == h
  {
    var longer := hashes + [x];
    assert longer[|hashes|] == x;
    assert forall i :: 0 <= i < |hashes| ==> longer[i] == hashes[i];
  }

  function Only(run: seq<Compilation>, connector: string): seq<Compilation> {
    if run == [] then []
    else
      var last := run[|run| - 1];
      var before := Only(run[..|run| - 1], connector);
      if last.connector == connector then before + [last] else before
  }

  /** Leaving all other connectors out of the run changes nothing for this one. */
  lemma {:induction false} ConnectorsIndependent(run: seq<Compilation>, connector: string)
    ensures connector in RowsAfter(run) <==> connector in RowsAfter(Only(run, connector))
    ensures connector in RowsAfter(run) ==> RowsAfter(run)[connector] == RowsAfter(Only(run, connector))[connector]
  {
    if run != [] {
      var n := |run| - 1;
      ConnectorsIndependent(run[..n], connector);
      if run[n].connector == connector {
        var own := Only(run, connector);
        assert own[..|own| - 1] == Only(run[..n], connector);
      }
    }
  }
}
