/** Saving a running database and starting another from the file. */
module CsdbReload {
  import opened Options
  import opened DumpReload
  import opened RoundTrip
  import opened Reload
  import opened ReloadExact
  import opened EntryGraph
  import opened Csdb

  /** The file has to be one that csc_read_db_from_file comes to an end on. The new database then has
      exactly the leaves of the old one below the root if and only if a line carries each of them; its
      forest is the one Rebuilt describes in that case, and the old database is left as it was. */
  method SaveAndRestore(db: Database) returns (copy: Database)
    requires db.Valid() && Loadable(Dump(db.Contents().top, []))
    ensures fresh(copy) && copy.Valid() && db.Valid() && db.Contents() == old(db.Contents())
    ensures copy.Contents() == Load(db.build, EMPTY, Dump(db.Contents().top, []))
    ensures (forall p :: LeafAt(copy.Contents().top, p) == LeafAt(db.Contents().top, p)) <==>
            Dumpable(db.Contents().top)
    ensures Dumpable(db.Contents().top) ==> copy.Contents() == Store(None, Rebuilt(db.build, db.Contents().top))
  {
    ghost var f := db.Contents().top;
    TopWellFormed(db.build, db.g);
    KeepsLeavesIff(db.build, f);
    if Dumpable(f) { ReloadOfDump(db.build, f); }
    var text := db.DumpFromKey(".");
    copy := new Database(db.build);
    copy.ReadDb(text);
  }
}
