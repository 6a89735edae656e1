/** `Logger::Backup_config`: an unused name for a file that could not be read. */
module Backup {
  import opened Text

  /** The names in the order in which they are tried. */
  function Probe(filename: string, k: nat): (name: string) {
    if k == 0 then filename + ".corrupted" else filename + ".corrupted" + Decimal(k - 1)
  }

  lemma ProbesDiffer(filename: string, j: nat, k: nat)
    requires j != k
    ensures Probe(filename, j) != Probe(filename, k)
  {
    var n := |filename + ".corrupted"|;
    if j > 0 && k > 0 && Probe(filename, j) == Probe(filename, k) {
      assert Probe(filename, j)[n..] == Decimal(j - 1) && Probe(filename, k)[n..] == Decimal(k - 1);
      DecimalInjective(j - 1, k - 1);
    }
  }

  lemma ProbeIsLonger(filename: string, k: nat)
    ensures |Probe(filename, k)| > |filename|
  {
  }

  ghost function ProbesBefore(filename: string, k: nat): (names: set<string>) {
    if k == 0 then {} else ProbesBefore(filename, k - 1) + {Probe(filename, k - 1)}
  }

  lemma {:induction false} ProbesAreBefore(filename: string, k: nat, name: string)
    requires name in ProbesBefore(filename, k)
    ensures exists j :: 0 <= j < k && name == Probe(filename, j)
  {
    if name != Probe(filename, k - 1) {
      ProbesAreBefore(filename, k - 1, name);
    }
  }

  lemma {:induction false} ProbesAreMany(filename: string, k: nat)
    ensures |ProbesBefore(filename, k)| == k
  {
    if k > 0 {
      ProbesAreMany(filename, k - 1);
      var last := Probe(filename, k - 1);
      if last in ProbesBefore(filename, k - 1) {
        ProbesAreBefore(filename, k - 1, last);
        var j :| 0 <= j < k - 1 && last == Probe(filename, j);
        ProbesDiffer(filename, j, k - 1);
      }
    }
  }

  lemma {:induction false} SubsetIsSmaller(a: set<string>, b: set<string>)
    requires a <= b
    ensures |a| <= |b|
    decreases |a|
  {
    if a != {} {
      var x :| x in a;
      SubsetIsSmaller(a - {x}, b - {x});
    }
  }

  /** There are not more used names in a row than files. */
  lemma UsedProbesAreFew(filename: string, files: set<string>, k: nat)
    requires forall j :: 0 <= j < k ==> Probe(filename, j) in files
    ensures k <= |files|
  {
    ProbesAreMany(filename, k);
    forall name | name in ProbesBefore(filename, k) ensures name in files {
      ProbesAreBefore(filename, k, name);
    }
    SubsetIsSmaller(ProbesBefore(filename, k), files);
  }

  /** The probes by their literal names. */
  lemma FirstUnused(filename: string, n: nat, files: set<string>)
    requires Probe(filename, n) !in files && forall j :: 0 <= j < n ==> Probe(filename, j) in files
    ensures n == 0 <==> filename + ".corrupted" !in files
    ensures n == 0 ==> Probe(filename, n) == filename + ".corrupted"
    ensures n > 0 ==> Probe(filename, n) == filename + ".corrupted" + Decimal(n - 1)
    ensures forall k: nat :: k < n - 1 ==> filename + ".corrupted" + Decimal(k) in files
  {
    if n > 0 { assert Probe(filename, 0) in files; }
    forall k: nat | k < n - 1 ensures filename + ".corrupted" + Decimal(k) in files {
      assert Probe(filename, k + 1) in files;
    }
  }

  datatype Result = Renamed(name: string) | NoSuchFile

  class FileSystem {
    /** Names of existing files, with their contents. */
    var files: map<string, string>

    predicate Exists(name: string)
      reads this
    {
      name in files
    }

    /** `std::filesystem::rename`: an existing file of the new name is replaced. */
    method Rename(from: string, to: string) returns (ok: bool)
      modifies this
      ensures ok == (from in old(files))
      ensures files == if ok then (old(files) - {from})[to := old(files)[from]] else old(files)
    {
      ok := from in files;
      if ok {
        files := (files - {from})[to := files[from]];
      }
    }

    /** The loop ends after at most one probe more than there are files, with the first unused name;
        the file has that name afterwards and every other file is as it was. */
    method BackupConfig(filename: string) returns (r: Result, ghost probes: nat)
      modifies this
      ensures probes <= |old(files).Keys| && Probe(filename, probes) !in old(files)
      ensures forall j :: 0 <= j < probes ==> Probe(filename, j) in old(files)
      ensures r == if filename in old(files) then Renamed(Probe(filename, probes)) else NoSuchFile
      ensures filename in old(files) && filename + ".corrupted" !in old(files) ==> r == Renamed(filename + ".corrupted")
      ensures filename in old(files) && filename + ".corrupted" in old(files) ==>
        exists n: nat :: r == Renamed(filename + ".corrupted" + Decimal(n)) && r.name !in old(files)
          && forall k: nat :: k < n ==> filename + ".corrupted" + Decimal(k) in old(files)
      ensures r.Renamed? ==>
        && files.Keys == old(files).Keys - {filename} + {r.name}
        && files[r.name] == old(files)[filename]
        && forall name :: name in old(files) && name != filename ==> name in files && files[name] == old(files)[name]
      ensures r.NoSuchFile? ==> files == old(files)
    {
      var backupFilename := filename + ".corrupted";
      var idx := 0;
      probes := 0;
      while Exists(backupFilename)
        invariant backupFilename == Probe(filename, probes) && probes == idx
        invariant files == old(files)
        invariant forall j :: 0 <= j < probes ==> Probe(filename, j) in files
        decreases |files.Keys| - probes
      {
        UsedProbesAreFew(filename, files.Keys, probes + 1);
        backupFilename := filename + ".corrupted" + Decimal(idx);
        idx := idx + 1;
        probes := probes + 1;
      }
      UsedProbesAreFew(filename, files.Keys, probes);
      ProbeIsLonger(filename, probes);
      FirstUnused(filename, probes, files.Keys);
      var ok := Rename(filename, backupFilename);
      return if ok then Renamed(backupFilename) else NoSuchFile, probes;
    }
  }
}
