/** The IMA runtime measurement list as securityfs shows it: the binary
    record of one measurement, its ASCII line, the hex digest printer, and
    the seq_file iteration over the list by position.

    The seq_file is a class whose buffer the printers extend; each printer
    is a method proved against a function that states the bytes it adds,
    and the layout of those bytes is proved about the function. */
module ImaMeasurements {
  import opened Wrappers
  import opened ImaEncoding

  /** Size of a SHA-1 template digest. */
  const TPM_DIGEST_SIZE: nat := 20

  /** IMA_TEMPLATE_IMA_NAME, the original template with no data length. */
  const IMA_TEMPLATE_NAME: seq<byte> := Ascii("ima")
  const FIELD_ID_DIGEST: seq<byte> := Ascii("d")
  const FIELD_ID_NAME: seq<byte> := Ascii("n")

  /** How a template field prints itself (enum ima_show_type). */
  datatype ShowType = ShowAscii | ShowBinary | ShowBinaryNoFieldLen | ShowBinaryOldStringFmt

  /** A template field descriptor; C strings are their bytes before the NUL. */
  datatype TemplateField = TemplateField(fieldId: seq<byte>)

  /** The data of one field of an entry; its `len` is the length of `data`. */
  datatype FieldData = FieldData(data: seq<byte>)

  datatype TemplateDesc = TemplateDesc(name: seq<byte>, fmt: seq<byte>, fields: seq<TemplateField>)

  /** A measurement. Only the SHA-1 bank of the template digests is shown,
      so only it is kept. */
  datatype TemplateEntry = TemplateEntry(
    pcr: i32, sha1: seq<byte>, desc: TemplateDesc, templateDataLen: u32, templateData: seq<FieldData>)
  {
    /** The digest has its fixed size and there is one datum per field. */
    predicate WellFormed() {
      |sha1| == TPM_DIGEST_SIZE && |templateData| == |desc.fields|
    }
  }

  /** A node of the measurement list; its entry may be NULL. */
  datatype QueueEntry = QueueEntry(entry: Option<TemplateEntry>)

  /** The fields' own printers (field_show), which are not part of this
      model: the bytes a field prints in a given format. */
  type FieldShow = (TemplateField, ShowType, FieldData) -> seq<byte>

  /** The output buffer of a seq_file. */
  class SeqFile {
    var buf: seq<byte>

    constructor ()
      ensures buf == []
    {
      buf := [];
    }

    /** seq_putc */
    method PutC(c: byte)
      modifies this
      ensures buf == old(buf) + [c]
    {
      buf := buf + [c];
    }

    /** seq_puts, and seq_printf of an already formatted string */
    method PutS(s: seq<byte>)
      modifies this
      ensures buf == old(buf) + s
    {
      buf := buf + s;
    }
  }

  // ---------------------------------------------------------------------
  // Specifications of the printed bytes

  /** The template's name, or its format string when the name is empty. */
  function TemplateName(desc: TemplateDesc): (r: seq<byte>)
    ensures desc.name != [] ==> r == desc.name
    ensures desc.name == [] ==> r == desc.fmt
  {
    if desc.name != [] then desc.name else desc.fmt
  }

  /** The format a field is shown in within a binary record: the "ima"
      template prints its digest without a length prefix and its name in
      the old fixed-size format; everything else is plain binary. */
  function BinaryShowType(isImaTemplate: bool, fieldId: seq<byte>): (r: ShowType)
    ensures r != ShowAscii
    ensures r == ShowBinaryNoFieldLen <==> isImaTemplate && fieldId == FIELD_ID_DIGEST
    ensures r == ShowBinaryOldStringFmt <==> isImaTemplate && fieldId == FIELD_ID_NAME
  {
    if isImaTemplate && fieldId == FIELD_ID_NAME then ShowBinaryOldStringFmt
    else if isImaTemplate && fieldId == FIELD_ID_DIGEST then ShowBinaryNoFieldLen
    else ShowBinary
  }

  /** The binary output of the first `n` fields, in field order. */
  function BinaryFields(fields: seq<TemplateField>, data: seq<FieldData>, isImaTemplate: bool,
                        show: FieldShow, n: nat): seq<byte>
    requires |fields| == |data| && n <= |fields|
  {
    if n == 0 then []
    else BinaryFields(fields, data, isImaTemplate, show, n - 1)
         + show(fields[n - 1], BinaryShowType(isImaTemplate, fields[n - 1].fieldId), data[n - 1])
  }

  /** One record of binary_runtime_measurements: PCR, SHA-1 digest, name
      length, name, the data length unless the template is "ima", then the
      fields. Numbers are 32-bit little-endian. */
  function BinaryRecord(e: TemplateEntry, show: FieldShow): seq<byte>
    requires e.WellFormed()
  {
    var isIma := TemplateName(e.desc) == IMA_TEMPLATE_NAME;
    BinaryPrefix(e) + BinaryFields(e.desc.fields, e.templateData, isIma, show, |e.desc.fields|)
  }

  /** The fixed part of a binary record, before the fields. */
  function BinaryPrefix(e: TemplateEntry): seq<byte>
  {
    var name := TemplateName(e.desc);
    Le32(U32(e.pcr)) + e.sha1 + Le32(U32(|name|)) + name
    + (if name == IMA_TEMPLATE_NAME then [] else Le32(e.templateDataLen))
  }

  /** The fixed part of a binary record, as a reader decodes it. */
  datatype BinaryHeader = BinaryHeader(pcr: u32, digest: seq<byte>, name: seq<byte>, dataLen: Option<u32>)

  /** Decodes the fixed part of a binary record and returns the rest (the
      field data); None when the bytes are too short. */
  function ParseBinaryHeader(rec: seq<byte>): Option<(BinaryHeader, seq<byte>)>
  {
    if |rec| < 28 then None
    else
      var n := FromLe32(rec[24..28]);
      if |rec| < 28 + n then None
      else
        var name := rec[28..28 + n];
        var rest := rec[28 + n..];
        if name == IMA_TEMPLATE_NAME then
          Some((BinaryHeader(FromLe32(rec[0..4]), rec[4..24], name, None), rest))
        else if |rest| < 4 then None
        else Some((BinaryHeader(FromLe32(rec[0..4]), rec[4..24], name, Some(FromLe32(rest[..4]))), rest[4..]))
  }

  /** A binary record decodes back to the entry's PCR (as u32), its SHA-1
      digest, its template name and, except for "ima", its data length,
      and what follows is exactly the fields' output. */
  lemma BinaryRecordLayout(e: TemplateEntry, show: FieldShow)
    requires e.WellFormed()
    requires |TemplateName(e.desc)| < 0x1_0000_0000
    ensures var name := TemplateName(e.desc);
            var isIma := name == IMA_TEMPLATE_NAME;
            ParseBinaryHeader(BinaryRecord(e, show))
            == Some((BinaryHeader(U32(e.pcr), e.sha1, name, if isIma then None else Some(e.templateDataLen)),
                     BinaryFields(e.desc.fields, e.templateData, isIma, show, |e.desc.fields|)))
  {
    var name := TemplateName(e.desc);
    var isIma := name == IMA_TEMPLATE_NAME;
    var dataLen := if isIma then None else Some(e.templateDataLen);
    var fields := BinaryFields(e.desc.fields, e.templateData, isIma, show, |e.desc.fields|);
    assert BinaryRecord(e, show) == HeaderBytes(U32(e.pcr), e.sha1, name, dataLen) + fields;
    HeaderRoundTrip(U32(e.pcr), e.sha1, name, dataLen, fields);
  }

  /** The fixed part of a binary record for the given header values. */
  function HeaderBytes(pcr: u32, digest: seq<byte>, name: seq<byte>, dataLen: Option<u32>): seq<byte>
    requires |name| < 0x1_0000_0000
  {
    Le32(pcr) + digest + Le32(|name|) + name + (match dataLen case Some(n) => Le32(n) case None => [])
  }

  /** Decoding a header, whatever follows it, gives back its values and
      what follows. */
  lemma HeaderRoundTrip(pcr: u32, digest: seq<byte>, name: seq<byte>, dataLen: Option<u32>, rest: seq<byte>)
    requires |digest| == TPM_DIGEST_SIZE && |name| < 0x1_0000_0000
    requires dataLen.None? <==> name == IMA_TEMPLATE_NAME
    ensures ParseBinaryHeader(HeaderBytes(pcr, digest, name, dataLen) + rest)
            == Some((BinaryHeader(pcr, digest, name, dataLen), rest))
  {
    var rec := HeaderBytes(pcr, digest, name, dataLen) + rest;
    var tail := (match dataLen case Some(n) => Le32(n) case None => []) + rest;
    assert rec == Le32(pcr) + digest + Le32(|name|) + name + tail;
    assert rec[0..4] == Le32(pcr);
    assert rec[4..24] == digest;
    assert rec[24..28] == Le32(|name|);
    Le32RoundTrip(pcr);
    Le32RoundTrip(|name|);
    assert rec[28..28 + |name|] == name;
    assert rec[28 + |name|..] == tail;
    if dataLen.Some? {
      assert tail[..4] == Le32(dataLen.value);
      assert tail[4..] == rest;
      Le32RoundTrip(dataLen.value);
    }
  }

  /** The ASCII output of the first `n` fields: a space before each field,
      and nothing more for a field whose data is empty. */
  function AsciiFields(fields: seq<TemplateField>, data: seq<FieldData>, show: FieldShow, n: nat): seq<byte>
    requires |fields| == |data| && n <= |fields|
  {
    if n == 0 then []
    else AsciiFields(fields, data, show, n - 1) + [SPACE]
         + (if |data[n - 1].data| == 0 then [] else show(fields[n - 1], ShowAscii, data[n - 1]))
  }

  /** One line of ascii_runtime_measurements: "%2d " PCR, hex digest,
      " " and the name, the fields, and a newline. */
  function AsciiRecord(e: TemplateEntry, show: FieldShow): seq<byte>
    requires e.WellFormed()
  {
    AsciiPrefix(e) + AsciiFields(e.desc.fields, e.templateData, show, |e.desc.fields|) + [NEWLINE]
  }

  /** The part of an ASCII line before the fields. */
  function AsciiPrefix(e: TemplateEntry): seq<byte>
  {
    FormatWidth2(e.pcr) + [SPACE] + Hex(e.sha1) + [SPACE] + TemplateName(e.desc)
  }

  /** Fields with no data print a lone space each. */
  lemma {:induction false} AsciiFieldsOfEmptyData(fields: seq<TemplateField>, data: seq<FieldData>,
                                                  show: FieldShow, n: nat)
    requires |fields| == |data| && n <= |fields|
    requires forall i :: 0 <= i < |data| ==> data[i].data == []
    ensures AsciiFields(fields, data, show, n) == Spaces(n)
  {
    if n > 0 {
      AsciiFieldsOfEmptyData(fields, data, show, n - 1);
      SpacesSnoc(n - 1);
    }
  }

  lemma {:induction false} SpacesSnoc(k: nat)
    ensures Spaces(k + 1) == Spaces(k) + [SPACE]
  {
    if k > 0 {
      SpacesSnoc(k - 1);
    }
  }

  /** How an ASCII line reads back: its first `p` bytes are the PCR
      column, then a space, the 40 hex digits of the SHA-1 digest, a space
      and the template name; and it ends with a newline. */
  predicate AsciiLineReads(line: seq<byte>, p: nat, pcr: int, digest: seq<byte>, name: seq<byte>) {
    && |line| >= p + 2 + 2 * TPM_DIGEST_SIZE + |name| + 1
    && ParseDecimal(line[..p]) == Some(pcr)
    && line[p] == SPACE
    && ParseHex(line[p + 1..p + 1 + 2 * TPM_DIGEST_SIZE]) == Some(digest)
    && line[p + 1 + 2 * TPM_DIGEST_SIZE] == SPACE
    && line[p + 2 + 2 * TPM_DIGEST_SIZE..p + 2 + 2 * TPM_DIGEST_SIZE + |name|] == name
    && line[|line| - 1] == NEWLINE
  }

  /** Every ASCII line reads back as its entry's PCR, digest and name. */
  lemma AsciiRecordLayout(e: TemplateEntry, show: FieldShow)
    requires e.WellFormed()
    ensures AsciiLineReads(AsciiRecord(e, show), |FormatWidth2(e.pcr)|, e.pcr, e.sha1, TemplateName(e.desc))
  {
    var pcr := FormatWidth2(e.pcr);
    var h := Hex(e.sha1);
    var rest := AsciiFields(e.desc.fields, e.templateData, show, |e.desc.fields|);
    HexRoundTrip(e.sha1);
    FormatWidth2RoundTrip(e.pcr);
    LineLayout(AsciiRecord(e, show), e.pcr, e.sha1, pcr, h, TemplateName(e.desc), rest);
  }

  /** The slicing behind AsciiRecordLayout, over plain byte strings. */
  lemma LineLayout(line: seq<byte>, pcrValue: int, digest: seq<byte>,
                   a: seq<byte>, b: seq<byte>, c: seq<byte>, rest: seq<byte>)
    requires line == a + [SPACE] + b + [SPACE] + c + rest + [NEWLINE]
    requires ParseDecimal(a) == Some(pcrValue)
    requires |b| == 2 * TPM_DIGEST_SIZE && ParseHex(b) == Some(digest)
    ensures AsciiLineReads(line, |a|, pcrValue, digest, c)
  {
    var p := |a|;
    assert line[..p] == a;
    assert line[p + 1..p + 1 + 2 * TPM_DIGEST_SIZE] == b;
    assert line[p + 2 + 2 * TPM_DIGEST_SIZE..p + 2 + 2 * TPM_DIGEST_SIZE + |c|] == c;
  }

  // ---------------------------------------------------------------------
  // The printers

  /** ima_putc: copies `datalen` bytes of `data` into the seq_file, one
      byte at a time. */
  method ImaPutc(m: SeqFile, data: seq<byte>, datalen: nat)
    requires datalen <= |data|
    modifies m
    ensures m.buf == old(m.buf) + data[..datalen]
    ensures datalen == |data| ==> m.buf == old(m.buf) + data
  {
    var remaining := datalen;
    var next := 0;
    while remaining > 0
      invariant 0 <= remaining <= datalen && next == datalen - remaining
      invariant m.buf == old(m.buf) + data[..next]
    {
      m.PutC(data[next]);
      assert data[..next + 1] == data[..next] + [data[next]];
      next := next + 1;
      remaining := remaining - 1;
    }
    assert data[..|data|] == data;
  }

  /** ima_print_digest: two lower-case hex digits for each of the first
      `size` bytes, in byte order. */
  method ImaPrintDigest(m: SeqFile, digest: seq<byte>, size: u32)
    requires size <= |digest|
    modifies m
    ensures m.buf == old(m.buf) + Hex(digest[..size])
  {
    var i: u32 := 0;
    while i < size
      invariant 0 <= i <= size
      invariant m.buf == old(m.buf) + Hex(digest[..i])
    {
      m.PutS(HexByte(digest[i]));
      assert digest[..i + 1][..i] == digest[..i];
      i := i + 1;
    }
  }

  /** ima_measurements_show: appends the binary record of the entry, or
      fails with -1 and prints nothing when the entry is NULL. */
  method MeasurementsShow(m: SeqFile, qe: QueueEntry, show: FieldShow) returns (r: int)
    requires qe.entry.Some? ==> qe.entry.value.WellFormed()
    modifies m
    ensures qe.entry.None? ==> r == -1 && m.buf == old(m.buf)
    ensures qe.entry.Some? ==> r == 0 && m.buf == old(m.buf) + BinaryRecord(qe.entry.value, show)
  {
    if qe.entry.None? {
      return -1;
    }
    var e := qe.entry.value;
    var templateName := TemplateName(e.desc);

    ghost var start := m.buf;

    var pcr := Le32(U32(e.pcr));
    ImaPutc(m, pcr, 4);
    ghost var acc := pcr;

    ImaPutc(m, e.sha1, TPM_DIGEST_SIZE);
    assert m.buf == start + (acc + e.sha1) by { AppendAssoc(start, acc, e.sha1); }
    acc := acc + e.sha1;

    var namelen := Le32(U32(|templateName|));
    ImaPutc(m, namelen, 4);
    assert m.buf == start + (acc + namelen) by { AppendAssoc(start, acc, namelen); }
    acc := acc + namelen;

    ImaPutc(m, templateName, |templateName|);
    assert m.buf == start + (acc + templateName) by { AppendAssoc(start, acc, templateName); }
    acc := acc + templateName;

    var isImaTemplate := templateName == IMA_TEMPLATE_NAME;
    if !isImaTemplate {
      var dataLen := Le32(e.templateDataLen);
      ImaPutc(m, dataLen, 4);
      assert m.buf == start + (acc + dataLen) by { AppendAssoc(start, acc, dataLen); }
      acc := acc + dataLen;
    } else {
      assert acc == acc + [];
    }
    assert acc == BinaryPrefix(e);
    ShowBinaryFields(m, e.desc.fields, e.templateData, isImaTemplate, show);
    assert m.buf == start + BinaryRecord(e, show) by {
      AppendAssoc(start, BinaryPrefix(e), BinaryFields(e.desc.fields, e.templateData, isImaTemplate, show, |e.desc.fields|));
    }
    return 0;
  }

  /** The field loop of ima_measurements_show: each field prints itself,
      in field order, in the format BinaryShowType picks. */
  method ShowBinaryFields(m: SeqFile, fields: seq<TemplateField>, data: seq<FieldData>,
                          isImaTemplate: bool, show: FieldShow)
    requires |fields| == |data|
    modifies m
    ensures m.buf == old(m.buf) + BinaryFields(fields, data, isImaTemplate, show, |fields|)
  {
    var i := 0;
    while i < |fields|
      invariant 0 <= i <= |fields|
      invariant m.buf == old(m.buf) + BinaryFields(fields, data, isImaTemplate, show, i)
    {
      var showType := ShowBinary;
      var field := fields[i];
      if isImaTemplate && field.fieldId == FIELD_ID_DIGEST {
        showType := ShowBinaryNoFieldLen;
      }
      if isImaTemplate && field.fieldId == FIELD_ID_NAME {
        showType := ShowBinaryOldStringFmt;
      }
      m.PutS(show(field, showType, data[i]));
      i := i + 1;
    }
  }

  /** ima_ascii_measurements_show: appends the ASCII line of the entry, or
      fails with -1 and prints nothing when the entry is NULL. */
  method AsciiMeasurementsShow(m: SeqFile, qe: QueueEntry, show: FieldShow) returns (r: int)
    requires qe.entry.Some? ==> qe.entry.value.WellFormed()
    modifies m
    ensures qe.entry.None? ==> r == -1 && m.buf == old(m.buf)
    ensures qe.entry.Some? ==> r == 0 && m.buf == old(m.buf) + AsciiRecord(qe.entry.value, show)
  {
    if qe.entry.None? {
      return -1;
    }
    var e := qe.entry.value;
    var templateName := TemplateName(e.desc);

    ghost var start := m.buf;
    m.PutS(FormatWidth2(e.pcr) + [SPACE]);
    ghost var acc := FormatWidth2(e.pcr) + [SPACE];
    ImaPrintDigest(m, e.sha1, TPM_DIGEST_SIZE);
    assert e.sha1[..TPM_DIGEST_SIZE] == e.sha1;
    assert m.buf == start + (acc + Hex(e.sha1)) by { AppendAssoc(start, acc, Hex(e.sha1)); }
    acc := acc + Hex(e.sha1);
    m.PutS([SPACE] + templateName);
    assert m.buf == start + (acc + [SPACE] + templateName) by {
      AppendAssoc(start, acc, [SPACE] + templateName);
      AppendAssoc(acc, [SPACE], templateName);
    }
    assert acc + [SPACE] + templateName == AsciiPrefix(e);
    ShowAsciiFields(m, e.desc.fields, e.templateData, show);
    ghost var fields := AsciiFields(e.desc.fields, e.templateData, show, |e.desc.fields|);
    m.PutS([NEWLINE]);
    assert m.buf == start + AsciiRecord(e, show) by {
      AppendAssoc(start, AsciiPrefix(e), fields);
      AppendAssoc(start, AsciiPrefix(e) + fields, [NEWLINE]);
    }
    return 0;
  }

  /** The field loop of ima_ascii_measurements_show: a space per field,
      then the field's ASCII form unless its data is empty. */
  method ShowAsciiFields(m: SeqFile, fields: seq<TemplateField>, data: seq<FieldData>, show: FieldShow)
    requires |fields| == |data|
    modifies m
    ensures m.buf == old(m.buf) + AsciiFields(fields, data, show, |fields|)
  {
    var i := 0;
    while i < |fields|
      invariant 0 <= i <= |fields|
      invariant m.buf == old(m.buf) + AsciiFields(fields, data, show, i)
    {
      ghost var before := AsciiFields(fields, data, show, i);
      m.PutS([SPACE]);
      if |data[i].data| == 0 {
        assert AsciiFields(fields, data, show, i + 1) == before + [SPACE] + [];
        i := i + 1;
        continue;
      }
      var text := show(fields[i], ShowAscii, data[i]);
      m.PutS(text);
      assert m.buf == old(m.buf) + (before + [SPACE] + text) by {
        AppendAssoc(old(m.buf) + before, [SPACE], text);
        AppendAssoc(old(m.buf), before + [SPACE], text);
        AppendAssoc(old(m.buf), before, [SPACE]);
      }
      i := i + 1;
    }
  }

  lemma AppendAssoc(a: seq<byte>, b: seq<byte>, c: seq<byte>)
    ensures a + b + c == a + (b + c)
  {
  }

  // ---------------------------------------------------------------------
  // Iteration by position

  /** ima_measurements_start: the index of the entry at position `pos`,
      found by walking the list with a decrementing counter; None (NULL)
      when `pos` is past the end. */
  method MeasurementsStart(list: seq<QueueEntry>, pos: int) returns (r: Option<nat>)
    ensures r == if 0 <= pos < |list| then Some(pos) else None
  {
    var l := pos;
    var i := 0;
    while i < |list|
      invariant 0 <= i <= |list|
      invariant l == pos - i
      invariant !(0 <= pos < i)
    {
      var hit := l == 0;
      l := l - 1;
      if hit {
        return Some(i);
      }
      i := i + 1;
    }
    return None;
  }

  /** ima_measurements_next: moves from the entry at index `cur` to the
      following one and advances the position by one; None (NULL) after
      the last entry. */
  method MeasurementsNext(list: seq<QueueEntry>, cur: nat, pos: int) returns (r: Option<nat>, pos': int)
    requires cur < |list|
    ensures pos' == pos + 1
    ensures r == if cur + 1 < |list| then Some(cur + 1) else None
  {
    var next := cur + 1;
    pos' := pos + 1;
    r := if next == |list| then None else Some(next);
  }

  /** A read of a measurements file from position `pos`: start, then next
      until NULL. It visits every entry from `pos` on exactly once, in
      list order. */
  method Traverse(list: seq<QueueEntry>, pos: int) returns (visited: seq<nat>)
    ensures |visited| == if 0 <= pos < |list| then |list| - pos else 0
    ensures forall k :: 0 <= k < |visited| ==> visited[k] == pos + k
  {
    visited := [];
    var p := pos;
    var cur := MeasurementsStart(list, p);
    while cur.Some?
      invariant cur.Some? ==> 0 <= pos <= p && cur.value == p < |list|
      invariant cur.None? ==> p == if 0 <= pos < |list| then |list| else pos
      invariant |visited| == p - pos
      invariant forall k :: 0 <= k < |visited| ==> visited[k] == pos + k
      decreases |list| - p
    {
      visited := visited + [cur.value];
      cur, p := MeasurementsNext(list, cur.value, p);
    }
  }
}
