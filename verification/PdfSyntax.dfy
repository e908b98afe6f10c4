/**
 The words a PDF reader looks for, spelled out from ISO 32000-1: sections 7.3.8 (streams), 7.3.10
 (indirect objects and references), 7.5.4 and 7.5.5 (cross-reference table and trailer), 7.7.2 and
 7.7.3 (catalog and pages), 9.6 (fonts) and 9.4 (text).
 */
module PdfSyntax {
  import opened Results
  import opened Texts

  function VersionLine(): Text { Literal("%PDF-1.4\n") }
  function FirstEntry(): Text { Literal("0000000000 65535 f \n") }
  function StartXrefWord(): Text { Literal("startxref\n") }
  function EndOfFile(): Text { Literal("\n%%EOF") }
  function XrefWord(): Text { Literal("xref\n0 ") }
  function InUseEntry(): Text { Literal(" 00000 n \n") }
  function TrailerWord(): Text { Literal("trailer<< /Size ") }
  function RootKey(): Text { Literal(" /Root ") }

  function ObjWord(): Text { Literal(" 0 obj") }
  function RefWord(): Text { Literal(" 0 R") }

  function PagesKey(): Text { Literal("<< /Type /Catalog /Pages ") }
  function KidsKey(): Text { Literal("<< /Type /Pages /Kids [") }
  function OneKid(): Text { Literal("] /Count 1 >>endobj\n") }
  function ParentKey(): Text { Literal("<< /Type /Page /Parent ") }
  function ContentsKey(): Text { Literal(" /MediaBox [0 0 612 792] /Contents ") }
  function FontKey(): Text { Literal(" /Resources << /Font << /F1 ") }
  function HelveticaFont(): Text { Literal("<< /Type /Font /Subtype /Type1 /BaseFont /Helvetica >>endobj\n") }

  function LengthKey(): Text { Literal("<< /Length ") }
  function StreamWord(): Text { Literal(" >>stream\n") }
  function EndStreamWord(): Text { Literal("\nendstream") }

  function BeginText(): Text { Literal("BT /F1 11 Tf 50 ") }
  function MoveText(): Text { Literal(" Td (") }
  function ShowText(): Text { Literal(" Tj ET") }

  /** An indirect reference behind `key`: the number of the object it names, and where the reference ends. */
  function ReadIndirect(s: Text, at: nat, key: Text): Option<(nat, nat)> {
    if !At(s, at, key) then None
    else
      var start := at + |key|;
      var end := DigitsEnd(s, start);
      if end == start || !At(s, end, RefWord()) then None else Some((Value(s[start..end]), end + 4))
  }

  lemma IndirectReads(s: Text, at: nat, key: Text, n: nat, end: nat)
    requires At(s, at, key) && At(s, at + |key|, Decimal(n)) && At(s, end, RefWord())
    requires end == at + |key| + |Decimal(n)|
    ensures ReadIndirect(s, at, key) == Some((n, end + 4))
  {
    assert RefWord()[0] == 0x20;
    AtUnit(s, end, RefWord());
    RunForward(s, at + |key|, end);
    DecimalValue(n);
  }
}
