/**
 * The fixed parts of a report file as a reader expects them, written down
 * independently of the printer (ISO 32000-1, sections 7.5 and 9.4).
 */
module PdfSyntax {

  // The file: version line, cross-reference table, trailer.

  function Version(): string { "%PDF-1.4\n" }
  function TableKey(): string { "xref\n0 " }
  function FirstFree(): string { "0000000000 65535 f \n" }
  function InUse(): string { " 00000 n \n" }
  function SizeKey(): string { "trailer\n<< /Size " }
  function RootEntry(): string { " /Root " }
  function TrailerClose(): string { " 0 R >>\n" }
  function StartKey(): string { "startxref\n" }
  function EndMark(): string { "\n%%EOF\n" }

  // Objects.

  function CatalogOpen(): string { "<< /Type /Catalog /Pages " }
  function KidsOpen(): string { "<< /Type /Pages /Kids [" }
  function CountKey(): string { "] /Count " }
  function Close(): string { " >>" }
  function Font(): string { "<< /Type /Font /Subtype /Type1 /BaseFont /Helvetica >>" }
  function PageOpen(): string {
    "<< /Type /Page /Parent 2 0 R /MediaBox [0 0 612 792] /Resources << /Font << /F1 3 0 R >> >> /Contents "
  }
  function Indirect(): string { " 0 R" }
  function LastIndirect(): string { " 0 R >>" }

  // Streams.

  function LengthKey(): string { "<< /Length " }
  function StreamOpen(): string { " >>\nstream\n" }
  function StreamClose(): string { "\nendstream" }
  function TextOpen(): string { "BT\n/F1 9 Tf\n50 750 Td\n12 TL\n" }
  function ShowLine(): string { " Tj\nT*\n" }
  function TextClose(): string { "ET" }
}
