// Where the archive puts things: object keys spelled from a table and an id range.
module ArchiveLayout {
  import opened Prelude
  import opened Decimal
  import opened ArchiveProtocol

  const BOOK := "incentive_book_events"
  const SHADOW := "incentive_shadow_events"
  const IDS_FORMAT := "postgres-copy-csv-gzip-ids-v1"

  predicate IsFrozenTable(table: string) {
    table == BOOK || table == SHADOW
  }

  /** File name without its suffix. */
  function Stem(table: string, idStart: nat, idEnd: nat): string {
    table + "_ids_" + Padded(idStart, 12) + "_" + Padded(idEnd, 12)
  }

  function Base(table: string): string {
    "telemetry/v1/" + table + "/ids/"
  }

  function RangeText(idStart: nat, idEnd: nat): string {
    Padded(idStart, 12) + "-" + Padded(idEnd, 12) + "/"
  }

  function RangePrefix(table: string, idStart: nat, idEnd: nat): string {
    Base(table) + RangeText(idStart, idEnd)
  }

  /** The key that archive_table uses for each object of the protocol. */
  function KeyText(table: string, k: Key): string {
    match k
    case DataKey(idStart, idEnd) => RangePrefix(table, idStart, idEnd) + (Stem(table, idStart, idEnd) + ".csv.gz")
    case ManifestKey(idStart, idEnd) =>
      RangePrefix(table, idStart, idEnd) + (Stem(table, idStart, idEnd) + ".manifest.json")
    case CompleteKey => Base(table) + "COMPLETE.json"
  }

  // --- the manifest's own account of where it belongs ------------------------------------------

  /** The fields of a manifest that `object_prefix` looks at. */
  datatype Description = Description(format: string, table: string, idStart: int, idEnd: int, file: string)

  /** Prefix for an id-range manifest; None is a ValueError. */
  function ObjectPrefix(d: Description): Option<string>
    requires d.format == IDS_FORMAT
  {
    if !IsFrozenTable(d.table) then None
    else if !(0 <= d.idStart < d.idEnd) then None
    else if d.file != Stem(d.table, d.idStart, d.idEnd) + ".csv.gz" then None
    else Some(Base(d.table) + Padded(d.idStart, 12) + "-" + Padded(d.idEnd, 12) + "/")
  }

  /** What `export_ids` writes for a range; None is a ValueError. */
  function Exported(table: string, idStart: int, idEnd: int): Option<Description> {
    if !IsFrozenTable(table) || !(0 <= idStart < idEnd) then None
    else Some(Description(IDS_FORMAT, table, idStart, idEnd, Stem(table, idStart, idEnd) + ".csv.gz"))
  }

  // --- spelling is faithful --------------------------------------------------------------------

  lemma RangeTextReads(s: nat, e: nat, s': nat, e': nat, x: string, y: string)
    requires RangeText(s, e) + x == RangeText(s', e') + y
    ensures s == s' && e == e' && x == y
  {
    hide Value, Padded;
    var p, q, p', q' := Padded(s, 12), Padded(e, 12), Padded(s', 12), Padded(e', 12);
    assert RangeText(s, e) + x == p + ("-" + q + "/" + x);
    assert RangeText(s', e') + y == p' + ("-" + q' + "/" + y);
    DigitRunEnds(p, p', "-" + q + "/" + x, "-" + q' + "/" + y);
    assert q + ("/" + x) == ("-" + q + "/" + x)[1..] && q' + ("/" + y) == ("-" + q' + "/" + y)[1..];
    DigitRunEnds(q, q', "/" + x, "/" + y);
    assert x == ("/" + x)[1..] && y == ("/" + y)[1..];
    PaddedReads(s, 12); PaddedReads(s', 12); PaddedReads(e, 12); PaddedReads(e', 12);
  }

  /** The two tables' bases part at a character inside both keys. */
  lemma BasesApart(table: string, table': string, x: string, y: string)
    requires IsFrozenTable(table) && IsFrozenTable(table') && Base(table) + x == Base(table') + y
    ensures table == table' && x == y
  {
    assert (Base(table) + x)[23] == table[10] && (Base(table') + y)[23] == table'[10];
    assert table == table';
    assert x == (Base(table) + x)[|Base(table)|..] && y == (Base(table) + y)[|Base(table)|..];
  }

  /** What follows the base in a key. */
  function Tail(table: string, k: Key): string {
    match k
    case DataKey(idStart, idEnd) => RangeText(idStart, idEnd) + (Stem(table, idStart, idEnd) + ".csv.gz")
    case ManifestKey(idStart, idEnd) => RangeText(idStart, idEnd) + (Stem(table, idStart, idEnd) + ".manifest.json")
    case CompleteKey => "COMPLETE.json"
  }

  lemma KeyTextSplits(table: string, k: Key)
    ensures KeyText(table, k) == Base(table) + Tail(table, k)
    ensures k != CompleteKey ==> IsDigit(Tail(table, k)[0])
  {
    hide Stem, Base, RangeText;
    if k != CompleteKey {
      Joined(Base(table), RangeText(k.idStart, k.idEnd), Stem(table, k.idStart, k.idEnd) + ".csv.gz");
      Joined(Base(table), RangeText(k.idStart, k.idEnd), Stem(table, k.idStart, k.idEnd) + ".manifest.json");
      RangeTextStarts(k.idStart, k.idEnd);
    }
  }

  lemma Joined(a: string, b: string, c: string)
    ensures a + b + c == a + (b + c)
  {
  }

  lemma RangeTextStarts(idStart: nat, idEnd: nat)
    ensures RangeText(idStart, idEnd) != [] && IsDigit(RangeText(idStart, idEnd)[0])
  {
    hide Padded;
    assert RangeText(idStart, idEnd)[0] == Padded(idStart, 12)[0];
  }

  lemma SuffixesApart(stem: string)
    ensures stem + ".csv.gz" != stem + ".manifest.json"
  {
    assert (stem + ".csv.gz")[|stem| + 1] == 'c' && (stem + ".manifest.json")[|stem| + 1] == 'm';
  }

  /** Distinct objects of the two tables never share a key: the map of the protocol loses nothing. */
  lemma KeysNeverCollide(table: string, k: Key, table': string, k': Key)
    requires IsFrozenTable(table) && IsFrozenTable(table')
    ensures KeyText(table, k) == KeyText(table', k') <==> table == table' && k == k'
  {
    hide Stem, Base, IsFrozenTable, RangeText;
    if KeyText(table, k) == KeyText(table', k') {
      KeyTextSplits(table, k);
      KeyTextSplits(table', k');
      BasesApart(table, table', Tail(table, k), Tail(table', k'));
      if !k.CompleteKey? && !k'.CompleteKey? {
        RangeTextReads(k.idStart, k.idEnd, k'.idStart, k'.idEnd, Tail(table, k)[|RangeText(k.idStart, k.idEnd)|..],
                       Tail(table, k')[|RangeText(k'.idStart, k'.idEnd)|..]);
        SuffixesApart(Stem(table, k.idStart, k.idEnd));
      }
    }
  }

  /** The keys in full, for the spellings of both ids with twelve digits or more. */
  lemma KeysSpelled(table: string, idStart: nat, idEnd: nat, p: string, q: string)
    requires Spells(p, idStart, 12) && Spells(q, idEnd, 12)
    ensures var base := "telemetry/v1/" + table + "/ids/";
            var file := p + "-" + q + "/" + (table + "_ids_" + p + "_" + q);
      && KeyText(table, DataKey(idStart, idEnd)) == base + (file + ".csv.gz")
      && KeyText(table, ManifestKey(idStart, idEnd)) == base + (file + ".manifest.json")
      && KeyText(table, CompleteKey) == base + "COMPLETE.json"
  {
    PaddedSpells(p, idStart, 12);
    PaddedSpells(q, idEnd, 12);
    var range, stem := p + "-" + q + "/", table + "_ids_" + p + "_" + q;
    assert RangeText(idStart, idEnd) == range && Stem(table, idStart, idEnd) == stem;
    hide Padded, Value, RangeText, Stem, Spells;
    Associates(Base(table), range, stem, ".csv.gz");
    Associates(Base(table), range, stem, ".manifest.json");
  }

  lemma Associates(a: string, b: string, c: string, d: string)
    ensures a + b + (c + d) == a + (b + c + d)
  {
  }

  lemma FrozenTables(table: string, idStart: int, idEnd: int)
    ensures IsFrozenTable(table) <==> table == "incentive_book_events" || table == "incentive_shadow_events"
    ensures Exported(table, idStart, idEnd).Some?
            ==> Exported(table, idStart, idEnd).value.format == "postgres-copy-csv-gzip-ids-v1"
  {
    hide Stem;
  }

  /** `upload` derives from the exported manifest exactly the keys that the resume check of archive_table looks for. */
  lemma UploadAndResumeAgree(table: string, idStart: nat, idEnd: nat)
    requires IsFrozenTable(table) && idStart < idEnd
    ensures Exported(table, idStart, idEnd).Some?
    ensures var prefix := ObjectPrefix(Exported(table, idStart, idEnd).value);
            prefix.Some?
            && prefix.value + (Stem(table, idStart, idEnd) + ".csv.gz") == KeyText(table, DataKey(idStart, idEnd))
            && prefix.value + (Stem(table, idStart, idEnd) + ".manifest.json")
               == KeyText(table, ManifestKey(idStart, idEnd))
  {
    assert Base(table) + Padded(idStart, 12) + "-" + Padded(idEnd, 12) + "/" == RangePrefix(table, idStart, idEnd);
    hide Stem, Base;
  }

  /** A manifest gets a prefix exactly when some export wrote it, and the prefix tells which. */
  lemma PrefixIdentifiesExport(d: Description)
    requires d.format == IDS_FORMAT
    ensures ObjectPrefix(d).Some? <==> Exported(d.table, d.idStart, d.idEnd) == Some(d)
    ensures forall d': Description | d'.format == IDS_FORMAT ::
              ObjectPrefix(d).Some? && ObjectPrefix(d') == ObjectPrefix(d) ==> d' == d
  {
    forall d': Description | d'.format == IDS_FORMAT && ObjectPrefix(d).Some? && ObjectPrefix(d') == ObjectPrefix(d)
      ensures d' == d
    {
      SamePrefix(d, d');
    }
  }

  lemma SamePrefix(d: Description, d': Description)
    requires d.format == IDS_FORMAT && d'.format == IDS_FORMAT
    requires ObjectPrefix(d).Some? && ObjectPrefix(d') == ObjectPrefix(d)
    ensures d' == d
  {
    hide Stem, Base, IsFrozenTable;
    assert ObjectPrefix(d).value == Base(d.table) + RangeText(d.idStart, d.idEnd);
    assert ObjectPrefix(d').value == Base(d'.table) + RangeText(d'.idStart, d'.idEnd);
    BasesApart(d.table, d'.table, RangeText(d.idStart, d.idEnd), RangeText(d'.idStart, d'.idEnd));
    assert RangeText(d.idStart, d.idEnd) + "" == RangeText(d.idStart, d.idEnd);
    assert RangeText(d'.idStart, d'.idEnd) + "" == RangeText(d'.idStart, d'.idEnd);
    RangeTextReads(d.idStart, d.idEnd, d'.idStart, d'.idEnd, "", "");
  }
}
