/** The zone directory: which file is whose, and which of them a listing of the directory shows. */
module ZoneDir {
  import opened Wrappers
  import opened Strings

  const DB := "db."

  /** Files by their path below the directory. */
  type Files = map<string, string>

  function FileName(zone: string): string { DB + zone }

  predicate IsZonePath(path: string) { HasPrefix(path, DB) }

  function ZoneOfFile(path: string): string { TrimPrefix(path, DB) }

  /** A file below a directory is no entry of the listing; the directory it is in is one, and is passed over. */
  predicate Flat(zone: string) { '/' !in zone }

  predicate Listed(path: string) { IsZonePath(path) && '/' !in path }

  lemma FileNames(zone: string, path: string)
    ensures IsZonePath(FileName(zone)) && ZoneOfFile(FileName(zone)) == zone && (Listed(FileName(zone)) <==> Flat(zone))
    ensures IsZonePath(path) ==> FileName(ZoneOfFile(path)) == path
  {
    assert forall c :: c in FileName(zone) <==> c in DB || c in zone;
  }

  lemma NamesAreFiles()
    ensures forall z :: IsZonePath(FileName(z)) && ZoneOfFile(FileName(z)) == z && (Listed(FileName(z)) <==> Flat(z))
    ensures forall f :: IsZonePath(f) ==> FileName(ZoneOfFile(f)) == f
    ensures forall f :: Listed(f) ==> IsZonePath(f) && Flat(ZoneOfFile(f))
  {
    forall z ensures IsZonePath(FileName(z)) && ZoneOfFile(FileName(z)) == z && (Listed(FileName(z)) <==> Flat(z)) { FileNames(z, z); }
    forall f | IsZonePath(f) ensures FileName(ZoneOfFile(f)) == f && (Listed(f) ==> Flat(ZoneOfFile(f))) {
      FileNames(f, f);
      FileNames(ZoneOfFile(f), f);
    }
  }

  function FileAt(files: Files, zone: string): Option<string> {
    if FileName(zone) in files then Some(files[FileName(zone)]) else None
  }

  /** The zones whose files a listing shows. */
  function ZonesOn(files: Files): set<string> { set f | f in files && Listed(f) :: ZoneOfFile(f) }

  lemma ZonesOnDisk(files: Files, zone: string)
    ensures zone in ZonesOn(files) <==> FileName(zone) in files && Flat(zone)
  {
    hide FileName, IsZonePath, ZoneOfFile, Listed, Flat;
    NamesAreFiles();
  }

  lemma FileAtThere(files: Files, zone: string)
    ensures FileAt(files, zone).Some? <==> FileName(zone) in files
  {
  }

  // ---- writing ---------------------------------------------------------------------------------------------

  const TMP := ".tmp"

  /** The zone whose file is the temporary file of this one. */
  function TmpOf(zone: string): string { zone + TMP }

  predicate IsTmp(zone: string) { HasSuffix(zone, TMP) }

  function BaseOf(zone: string): string { TrimSuffix(zone, TMP) }

  lemma TmpNames(zone: string)
    ensures IsTmp(TmpOf(zone)) && BaseOf(TmpOf(zone)) == zone && (Flat(TmpOf(zone)) <==> Flat(zone))
    ensures FileName(TmpOf(zone)) == FileName(zone) + TMP && TmpOf(zone) != zone
    ensures IsTmp(zone) ==> TmpOf(BaseOf(zone)) == zone && |BaseOf(zone)| < |zone|
  {
    assert forall c :: c in TmpOf(zone) <==> c in zone || c in TMP;
  }

  /** The zones whose files are the temporary files of these. */
  function TmpsOf(zones: set<string>): set<string> { set z | z in zones :: TmpOf(z) }

  lemma InTmpsOf(zones: set<string>, zone: string)
    ensures zone in TmpsOf(zones) <==> IsTmp(zone) && BaseOf(zone) in zones
  {
    TmpNames(zone);
    forall z | z in zones ensures IsTmp(TmpOf(z)) && BaseOf(TmpOf(z)) == z { TmpNames(z); }
  }

  lemma {:induction false} PrefixIsLess(s: string, more: string)
    requires more != ""
    ensures Less(s, s + more)
  {
    if s == "" {
      assert s + more == more;
    } else {
      PrefixIsLess(s[1..], more);
      assert (s + more)[1..] == s[1..] + more;
    }
  }

  /** What is left of the file of a zone by the writing of others: a file written goes through its temporary file. */
  function Left(files: Files, written: set<string>, zone: string): Option<string> {
    if zone in TmpsOf(written) then None else FileAt(files, zone)
  }

  /** The file is written beside its path and then renamed. */
  method WriteFile(files: Files, path: string, content: string) returns (after: Files)
    ensures after == (files - {path + TMP})[path := content]
  {
    var tmp := path + TMP;
    after := files[tmp := content];
    after := (after - {tmp})[path := after[tmp]];
  }

  /** A path that is used as written: nothing in it for filepath.Join to clean away. */
  predicate PlainPath(zone: string) {
    forall c :: c in Split(zone, '/')[1..] ==> c != "" && c != "." && c != ".."
  }
}
