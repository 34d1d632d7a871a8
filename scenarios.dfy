/**
 * Concrete cases of the widget's formatting and classification functions,
 * each proved from the general definitions.
 */
module Scenarios {
  import opened Strings
  import opened Wrappers
  import opened Icons
  import opened Sizes

  /** Concrete classifications, as the widget's behaviour promises them. */
  lemma ImageExample()
    ensures GetFileIcon("image/png") == ImageIcon
  {
    assert "image/png"[..6] == "image/";
  }

  lemma PdfExample()
    ensures GetFileIcon("application/pdf") == PdfIcon
  {
    DifferentCharNotPrefix("application/pdf", "image/", 0);
    DifferentCharNotPrefix("application/pdf", "video/", 0);
    DifferentCharNotPrefix("application/pdf", "audio/", 1);
    assert OccursAt("application/pdf", "pdf", 12);
  }

  lemma PlainTextExample()
    ensures GetFileIcon("text/plain") == GenericIcon
  {
    assert !StartsWith("text/plain", "image/") by { DifferentCharNotPrefix("text/plain", "image/", 0); }
    assert !StartsWith("text/plain", "video/") by { DifferentCharNotPrefix("text/plain", "video/", 0); }
    assert !StartsWith("text/plain", "audio/") by { DifferentCharNotPrefix("text/plain", "audio/", 0); }
    assert !Includes("text/plain", "pdf") by { AbsentCharNotIncluded("text/plain", "pdf", 2, 'f'); }
    assert !Includes("text/plain", "word") by { AbsentCharNotIncluded("text/plain", "word", 0, 'w'); }
    assert !Includes("text/plain", "excel") by { AbsentCharNotIncluded("text/plain", "excel", 2, 'c'); }
    assert !Includes("text/plain", "spreadsheet") by { AbsentCharNotIncluded("text/plain", "spreadsheet", 5, 'd'); }
    GenericWhenNoTestPasses("text/plain");
  }

  lemma EmptyTypeExample()
    ensures GetFileIcon("") == GenericIcon
  {
    AbsentCharNotIncluded("", "pdf", 0, 'p');
    AbsentCharNotIncluded("", "word", 0, 'w');
    AbsentCharNotIncluded("", "excel", 0, 'e');
    AbsentCharNotIncluded("", "spreadsheet", 0, 's');
  }

  lemma ZeroBytesExample()
    ensures FormatFileSize(0) == Ok("0 Bytes")
  {
  }

  lemma OneKilobyteExample()
    ensures FormatFileSize(1024) == Ok("1 KB")
  {
    assert UnitIndex(1024) == 1 by { UnitIndexUnique(1024, 1); }
    assert RoundToHundredths(1024, 1024) == 100;
    assert DecimalText(100) == "1";
    assert Units[1] == "KB";
    assert "1" + " " + "KB" == "1 KB";
  }

  lemma KilobyteAndAHalfExample()
    ensures FormatFileSize(1536) == Ok("1.5 KB")
  {
    assert UnitIndex(1536) == 1 by { UnitIndexUnique(1536, 1); }
    assert RoundToHundredths(1536, 1024) == 150;
    assert DecimalText(150) == "1.5";
    assert "1.5" + " " + "KB" == "1.5 KB";
  }

  lemma OneMegabyteExample()
    ensures FormatFileSize(1048576) == Ok("1 MB")
  {
    assert UnitIndex(1048576) == 2 by { UnitIndexUnique(1048576, 2); }
    assert Pow(K, 2) == 1048576;
    assert RoundToHundredths(1048576, 1048576) == 100;
    assert DecimalText(100) == "1";
    assert "1" + " " + "MB" == "1 MB";
  }

  /** A value exactly halfway between two hundredths rounds up: 1152 bytes are 1.125 KB. */
  lemma TieRoundsUpExample()
    ensures FormatFileSize(1152) == Ok("1.13 KB")
  {
    assert UnitIndex(1152) == 1 by { UnitIndexUnique(1152, 1); }
    assert RoundToHundredths(1152, 1024) == 113;
    assert DecimalText(113) == "1.13";
    assert "1.13" + " " + "KB" == "1.13 KB";
  }

  /** Just below a mebibyte the value rounds up to 1024 of the smaller unit. */
  lemma RoundsUpToTheBaseExample()
    ensures FormatFileSize(1048575) == Ok("1024 KB")
  {
    assert UnitIndex(1048575) == 1 by { UnitIndexUnique(1048575, 1); }
    assert RoundToHundredths(1048575, 1024) == 102400;
    assert NatToString(1024) == "1024";
    assert DecimalText(102400) == "1024";
    assert "1024" + " " + "KB" == "1024 KB";
  }
}
