/** What the check of a flash row covers: every byte of the entry, and nothing behind it. */
module ConfigStoreEntry {
  import opened Bytes
  import Crc8
  import Crc8Reference
  import opened ConfigStore

  /** A row is valid exactly when it carries the magic number, a name that is not erased and a length
      that fits, and name, length, data and check byte together leave the residue 0x42. */
  lemma ValidExactly(e: Row)
    ensures e.Valid() <==>
      && e.magic == 0x10C0FFEE && e.name[0] != 0xFF && e.len <= 240
      && Crc8.Feed(0xFF, e.name + [e.len] + e.data[..e.len] + [e.crc]) == 0x42
  {
    if e.len <= 240 {
      Crc8.Residue(e.name + [e.len] + e.data[..e.len], e.crc);
      Crc8Reference.ResidueIs();
    }
    hide Crc8.Crc, Crc8.Feed, Crc8.Shifts;
  }

  lemma NameByte(e: Row, i: nat, b: byte)
    requires e.len <= 240 && i < 4 && b != e.name[i]
    ensures Crc8.Crc(e.name[i := b] + [e.len] + e.data[..e.len]) != Crc8.Crc(e.name + [e.len] + e.data[..e.len])
  {
    var pre, post := e.name[..i], e.name[i + 1..] + [e.len] + e.data[..e.len];
    hide Crc8.Crc;
    assert e.name[i := b] == pre + [b] + e.name[i + 1..] && e.name == pre + [e.name[i]] + e.name[i + 1..];
    assert e.name[i := b] + [e.len] + e.data[..e.len] == pre + [b] + post;
    assert e.name + [e.len] + e.data[..e.len] == pre + [e.name[i]] + post;
    Crc8.DetectsByteError(pre, b, e.name[i], post);
  }

  lemma DataByte(e: Row, i: nat, b: byte)
    requires i < e.len <= 240 && b != e.data[i]
    ensures Crc8.Crc(e.name + [e.len] + e.data[i := b][..e.len]) != Crc8.Crc(e.name + [e.len] + e.data[..e.len])
  {
    var pre, post := e.name + [e.len] + e.data[..i], e.data[i + 1..e.len];
    hide Crc8.Crc;
    assert e.data[i := b][..e.len] == e.data[..i] + [b] + post && e.data[..e.len] == e.data[..i] + [e.data[i]] + post;
    assert e.name + [e.len] + e.data[i := b][..e.len] == pre + [b] + post;
    assert e.name + [e.len] + e.data[..e.len] == pre + [e.data[i]] + post;
    Crc8.DetectsByteError(pre, b, e.data[i], post);
  }

  /** One byte of the name, of the data or of the check changed in flash, and a valid row is not valid
      any more. */
  lemma ByteErrorSeen(e: Row, i: nat, b: byte)
    requires e.Valid()
    ensures i < 4 && b != e.name[i] ==> !e.(name := e.name[i := b]).Valid()
    ensures i < e.len && b != e.data[i] ==> !e.(data := e.data[i := b]).Valid()
    ensures b != e.crc ==> !e.(crc := b).Valid()
  {
    hide Crc8.Crc;
    if i < 4 && b != e.name[i] {
      NameByte(e, i, b);
    }
    if i < e.len && b != e.data[i] {
      DataByte(e, i, b);
    }
  }

  /** What lies behind the data is not looked at. */
  lemma TailIgnored(e: Row, data: Block)
    requires e.len <= 240 && data[..e.len] == e.data[..e.len]
    ensures e.(data := data).Valid() <==> e.Valid()
  {
    hide Crc8.Crc;
  }

  /** The entry that a commit writes: one number higher than its slot's, the rest of the block erased. */
  lemma EntryWritten(s: Slot)
    requires s.len <= 240
    ensures var e := NewEntry(s);
      && e.magic == 0x10C0FFEE && e.sq == s.sq + 1 && e.name == s.name && e.len == s.len
      && e.data[..s.len] == s.data[..s.len] && (forall i :: s.len <= i < 240 ==> e.data[i] == 0xFF)
      && (e.Valid() <==> s.name[0] != 0xFF)
  {
    hide Crc8.Crc;
    assert NewEntry(s).data[..s.len] == s.data[..s.len];
  }

  /** A row after its erase and its first pages: the header takes 16 of 64 bytes of the first page, so
      byte i of the data is there once page (16 + i) / 64 is, and reads as erased before. */
  lemma TornRow(e: Row, pages: nat, i: nat)
    requires pages <= 4 && i < 240
    ensures var t := Programmed(e, pages);
      && (pages > 0 ==> t == e.(data := t.data))
      && (pages == 0 ==> t.magic == 0xFFFFFFFF && !t.Valid())
      && t.data[i] == if (16 + i) / 64 < pages then e.data[i] else 0xFF
  {
    hide Crc8.Crc;
  }
}
