/** The archive name codec: `[slim_]<slug>_<date>.zip`, and the 2-or-3-piece decoder both listings use. */
module Filenames {
  import opened Wrappers
  import opened Text

  const SlimPrefix: string := "slim_"
  const ZipSuffix: string := ".zip"

  /** `getFilename(slug, format, isSlim)`, with `today->format(format)` given as `dateText`. */
  function Filename(slug: string, dateText: string, isSlim: bool): (name: string)
    ensures EndsWith(name, ZipSuffix) && |name| > |ZipSuffix|
    ensures isSlim ==> StartsWith(name, SlimPrefix)
    ensures Count(name, '_') == Count(slug, '_') + Count(dateText, '_') + (if isSlim then 2 else 1)
  {
    var head := if isSlim then SlimPrefix else "";
    NameParts(head, slug, dateText);
    assert Count(SlimPrefix, '_') == 1;
    head + slug + "_" + dateText + ZipSuffix
  }

  /** The pieces of a joined name: it starts with the head, ends with the suffix and holds their separators plus one. */
  lemma NameParts(head: string, slug: string, dateText: string)
    ensures var name := head + slug + "_" + dateText + ZipSuffix;
      EndsWith(name, ZipSuffix) && |name| > |ZipSuffix| && StartsWith(name, head)
      && Count(name, '_') == Count(head, '_') + Count(slug, '_') + Count(dateText, '_') + 1
  {
    var withSlug := head + slug;
    var joined := withSlug + "_";
    var stem := joined + dateText;
    var name := stem + ZipSuffix;
    assert name[|stem|..] == ZipSuffix;
    assert name[..|head|] == head;
    CountAppend(stem, ZipSuffix, '_');
    CountAppend(joined, dateText, '_');
    CountAppend(withSlug, "_", '_');
    CountAppend(head, slug, '_');
  }

  /** What a name decodes to: the slug piece, the date piece still to be parsed, and the slim flag. */
  datatype Decoded = Decoded(slug: string, datePiece: string, isSlim: bool)

  /** `explode('_', basename($filename, '.zip'))` kept only when it has 2 or 3 pieces. */
  function Decode(filename: string): (r: Option<Decoded>)
    ensures r.Some? <==> Count(StripSuffix(filename, ZipSuffix), '_') in {1, 2}
    ensures r.Some? ==> (r.value.isSlim <==> Count(StripSuffix(filename, ZipSuffix), '_') == 2)
    ensures r.Some? ==> '_' !in r.value.slug && '_' !in r.value.datePiece
  {
    var pieces := Split(StripSuffix(filename, ZipSuffix), '_');
    SplitCount(StripSuffix(filename, ZipSuffix), '_');
    SplitPiecesClean(StripSuffix(filename, ZipSuffix), '_');
    if |pieces| == 2 then Some(Decoded(pieces[0], pieces[1], false))
    else if |pieces| == 3 then Some(Decoded(pieces[1], pieces[2], true))
    else None
  }

  /** No piece of `explode` contains the separator. */
  lemma {:induction false} SplitPiecesClean(s: string, sep: char)
    ensures forall i :: 0 <= i < |Split(s, sep)| ==> sep !in Split(s, sep)[i]
  {
    if |s| > 0 {
      SplitPiecesClean(s[1..], sep);
      var rest := Split(s[1..], sep);
      if s[0] != sep {
        assert forall i :: 1 <= i < |Split(s, sep)| ==> Split(s, sep)[i] == rest[i];
        assert Split(s, sep)[0] == [s[0]] + rest[0];
      }
    }
  }

  lemma StripZip(stem: string)
    requires |stem| > 0
    ensures StripSuffix(stem + ZipSuffix, ZipSuffix) == stem
  {
    var name := stem + ZipSuffix;
    assert name[|name| - |ZipSuffix|..] == ZipSuffix;
    assert name[..|name| - |ZipSuffix|] == stem;
  }

  /** A slug and date text free of `_` come back from the name built for them, slim flag included. */
  lemma RoundTrip(slug: string, dateText: string, isSlim: bool)
    requires '_' !in slug && '_' !in dateText
    ensures Decode(Filename(slug, dateText, isSlim)) == Some(Decoded(slug, dateText, isSlim))
  {
    if isSlim {
      assert Filename(slug, dateText, isSlim) == "slim" + "_" + slug + "_" + dateText + ZipSuffix;
      SlimMarkerUnchecked("slim", slug, dateText);
    } else {
      var pair := slug + ['_'] + dateText;
      assert Filename(slug, dateText, isSlim) == pair + ZipSuffix;
      SplitWithoutSeparator(dateText, '_');
      SplitAfterPiece(slug, '_', dateText);
      DecodeSplit(pair);
    }
  }

  /** The first of three pieces is never compared with "slim": any prefix makes a slim export. */
  lemma SlimMarkerUnchecked(marker: string, slug: string, dateText: string)
    requires '_' !in marker && '_' !in slug && '_' !in dateText
    ensures Decode(marker + "_" + slug + "_" + dateText + ZipSuffix) == Some(Decoded(slug, dateText, true))
  {
    var pair := slug + ['_'] + dateText;
    var stem := marker + ['_'] + pair;
    assert marker + "_" + slug + "_" + dateText + ZipSuffix == stem + ZipSuffix;
    SplitWithoutSeparator(dateText, '_');
    SplitAfterPiece(slug, '_', dateText);
    SplitAfterPiece(marker, '_', pair);
    DecodeSplit(stem);
  }

  /** Decoding a name is decoding the pieces of its stem. */
  lemma DecodeSplit(stem: string)
    requires |stem| > 0
    ensures var pieces := Split(stem, '_');
      Decode(stem + ZipSuffix)
        == if |pieces| == 2 then Some(Decoded(pieces[0], pieces[1], false))
           else if |pieces| == 3 then Some(Decoded(pieces[1], pieces[2], true))
           else None
  {
    StripZip(stem);
  }

  /** A full export of a slug with one `_` reads back as a slim export of the slug's second half. */
  lemma MisparseUnderscoreSlug(head: string, tail: string, dateText: string)
    requires '_' !in head && '_' !in tail && '_' !in dateText
    ensures Decode(Filename(head + "_" + tail, dateText, false)) == Some(Decoded(tail, dateText, true))
  {
    assert Filename(head + "_" + tail, dateText, false) == head + "_" + tail + "_" + dateText + ZipSuffix;
    SlimMarkerUnchecked(head, tail, dateText);
  }

  /** A full export whose slug holds two or more `_`, or a slim one whose slug holds any, is not listed at all. */
  lemma UnderscoreSlugDropped(slug: string, dateText: string, isSlim: bool)
    requires Count(slug, '_') + (if isSlim then 1 else 0) >= 2
    ensures Decode(Filename(slug, dateText, isSlim)).None?
  {
    var name := Filename(slug, dateText, isSlim);
    var stem := name[..|name| - |ZipSuffix|];
    assert name == stem + ZipSuffix;
    StripZip(stem);
    CountAppend(stem, ZipSuffix, '_');
  }

  lemma {:induction false} CountAppend(a: string, b: string, c: char)
    ensures Count(a + b, c) == Count(a, c) + Count(b, c)
  {
    if |a| > 0 {
      assert (a + b)[1..] == a[1..] + b;
      CountAppend(a[1..], b, c);
    } else {
      assert a + b == b;
    }
  }

  /** An archive named `<prefix>-<date>.zip`, as the older exporter names its root, has one piece and is never listed. */
  lemma HyphenatedNameNotDecoded(prefix: string, dateText: string)
    requires '_' !in prefix && '_' !in dateText
    ensures Decode(prefix + "-" + dateText + ZipSuffix).None?
  {
    var stem := prefix + "-" + dateText;
    assert prefix + "-" + dateText + ZipSuffix == stem + ZipSuffix;
    StripZip(stem);
    CountAppend(prefix, "-" + dateText, '_');
    CountAppend("-", dateText, '_');
    assert prefix + ("-" + dateText) == stem;
  }
}
