/** Worked examples of `normalize_for_geocode` (mapa.py:145-170), each proved
    from the general lemmas about the individual rewrite passes. */
module NormalizeExamples {
  import opened Basics
  import opened Text
  import opened Normalize

  /** The CEP after the `CEP` marker is cut out and returned; the separator
      left behind is removed by the clean-up. */
  lemma CepExample(t: string)
    requires t == "RUA A, 123 - CEP 13565-000"
    ensures ExtractCep(t) == ("RUA A, 123 - ", Some("13565-000"))
    ensures Cleanup("RUA A, 123 - ") == "RUA A, 123"
  {
    CepFoundAt13(t);
    CepCut(t);
    CleanupExample();
  }

  lemma CepFoundAt13(t: string)
    requires t == "RUA A, 123 - CEP 13565-000"
    ensures FindCep(t, 0) == Some(CepMatch(13, 17, 26))
  {
    assert t[13..16] == "CEP";
    assert SkipSpaces(t, 17) == 17;
    assert SkipSpaces(t, 16) == 17;
    assert DigitsAt(t, 17, 5) && t[22] == '-' && DigitsAt(t, 23, 3);
    assert CepAt(t, 13) == Some(CepMatch(13, 17, 26));
    assert forall k :: 0 <= k < 13 ==> t[k] != 'C';
    FindCepSkips(t, 0, 13);
  }

  lemma CepCut(t: string)
    requires t == "RUA A, 123 - CEP 13565-000"
    requires FindCep(t, 0) == Some(CepMatch(13, 17, 26))
    ensures ExtractCep(t) == ("RUA A, 123 - ", Some("13565-000"))
  {
    ExtractCepOf(t, CepMatch(13, 17, 26));
    CepPieces(t);
  }

  lemma CepPieces(t: string)
    requires t == "RUA A, 123 - CEP 13565-000"
    ensures t[..13] + t[26..] == "RUA A, 123 - " && t[17..26] == "13565-000"
  {
    assert t[26..] == [];
    assert t[..13] + t[26..] == t[..13];
  }

  /** What `ExtractCep` returns once the leftmost match is known. */
  lemma ExtractCepOf(t: string, m: CepMatch)
    requires FindCep(t, 0) == Some(m)
    ensures ExtractCep(t) == (t[..m.start] + t[m.end..], Some(t[m.groupStart..m.end]))
  {
  }

  lemma CleanupExample()
    ensures Cleanup("RUA A, 123 - ") == "RUA A, 123"
  {
    var t := "RUA A, 123 - ";
    var u := "RUA A, 123, ";
    DashesExample();
    CommasExample("RUA A, 123, ");
    assert NoDoubleSpace(u) by {
      NoDoubleExample();
    }
    CollapseSpacesKeeps(u);
    StripExample();
    assert CollapseSpaces(SpaceCommas(ReplaceDashes(t))) == u;
  }

  lemma NoDoubleExample()
    ensures NoDoubleSpace("RUA A, 123, ")
  {
  }

  lemma DashesExample()
    ensures ReplaceDashes("RUA A, 123 - ") == "RUA A, 123, "
  {
    var a := "RUA A, 123";
    assert ReplaceDashes(" - ") == ", " by {
      assert " - "[..3] == " - " && " - "[3..] == "";
    }
    ReplaceDashesKeeps(a, " - ");
    assert a + " - " == "RUA A, 123 - " && a + ", " == "RUA A, 123, ";
  }

  lemma CommasExample(t: string)
    requires t == "RUA A, 123, "
    ensures SpaceCommas(t) == t
  {
    CommaThenNumber(", 123, ");
    PlainStreet("RUA A");
    SpaceCommasKeeps("RUA A", ", 123, ");
    JoinStreetAndNumber();
  }

  lemma PlainStreet(a: string)
    requires a == "RUA A"
    ensures ',' !in a && |a| > 0 && !IsSpace(a[|a| - 1])
  {
  }

  lemma JoinStreetAndNumber()
    ensures "RUA A" + ", 123, " == "RUA A, 123, "
  {
  }

  lemma CommaAlone()
    ensures SpaceCommas(", ") == ", "
  {
    assert ", "[2..] == "";
    assert CommaEnd(", ") == Some(2);
  }

  lemma CommaThenNumber(t: string)
    requires t == ", 123, "
    ensures SpaceCommas(t) == t
  {
    LeadingComma(t);
    CommaAlone();
    SpaceCommasKeeps("123", ", ");
    assert "123" + ", " == "123, ";
  }

  lemma LeadingComma(t: string)
    requires t == ", 123, "
    ensures CommaEnd(t) == Some(2) && t[2..] == "123, "
  {
    assert SkipSpaces(t, 1) == 2;
  }

  lemma StripExample()
    ensures StripChars("RUA A, 123, ", EdgeJunk) == "RUA A, 123"
  {
    assert "RUA A, 123, "[0] !in EdgeJunk;
    assert StripLeft("RUA A, 123, ", EdgeJunk) == "RUA A, 123, ";
    var t := "RUA A, 123, ";
    var u := t[..|t| - 1];
    assert u == "RUA A, 123,";
    var v := u[..|u| - 1];
    assert v == "RUA A, 123";
    assert StripRight(v, EdgeJunk) == v;
  }

  /** The whole normalizer on an address with a CEP. */
  lemma NormalizeExample(t: string)
    requires t == "RUA A, 123 - CEP 13565-000"
    ensures NormalizeForGeocode(t) == Normalized("RUA A, 123", Some("13565-000"))
  {
    UpperStripExample(t);
    PrefixesExample(t);
    KmExample(t);
    CodeBlocksExample(t);
    CepExample(t);
    StagesCompose(t, t, "RUA A, 123 - ", "13565-000", "RUA A, 123");
  }

  /** The normalizer is the composition of its stages. */
  lemma StagesCompose(raw: string, t: string, rest: string, cep: string, base: string)
    requires raw != "" && Strip(Upper(raw)) == t
    requires SplitPrefixes(t, Prefixes) == t && NormalizeKm(t, false) == t && RemoveCodeBlocks(t) == t
    requires ExtractCep(t) == (rest, Some(cep)) && Cleanup(rest) == base
    ensures NormalizeForGeocode(raw) == Normalized(base, Some(cep))
  {
  }

  lemma UpperStripExample(t: string)
    requires t == "RUA A, 123 - CEP 13565-000"
    ensures Strip(Upper(t)) == t
  {
    UpperExample();
    StripLeftRawExample();
    StripRightRawExample();
  }

  lemma CodeBlocksExample(t: string)
    requires t == "RUA A, 123 - CEP 13565-000"
    ensures RemoveCodeBlocks(t) == t
  {
    SampleLacksSlash();
    RemoveCodeBlocksAbsent(t);
  }

  lemma SampleLacksSlash()
    ensures '/' !in "RUA A, 123 - CEP 13565-000"
  {
  }

  lemma UpperExample()
    ensures Upper("RUA A, 123 - CEP 13565-000") == "RUA A, 123 - CEP 13565-000"
  {
    var t := "RUA A, 123 - CEP 13565-000";
    assert forall c :: c in t ==> UpperFixed(c);
    UpperOfFixed(t);
  }

  lemma StripLeftRawExample()
    ensures StripLeftSpace("RUA A, 123 - CEP 13565-000") == "RUA A, 123 - CEP 13565-000"
  {
  }

  lemma StripRightRawExample()
    ensures StripRightSpace("RUA A, 123 - CEP 13565-000") == "RUA A, 123 - CEP 13565-000"
  {
  }

  lemma KmExample(t: string)
    requires t == "RUA A, 123 - CEP 13565-000"
    ensures NormalizeKm(t, false) == t
  {
    AbsentByChar(t, "KM", 0);
    NormalizeKmAbsent(t, false);
  }

  /** No prefix splits this address: `RUA` is followed by a space and no
      other prefix occurs in it. */
  lemma PrefixesExample(t: string)
    requires t == "RUA A, 123 - CEP 13565-000"
    ensures SplitPrefixes(t, Prefixes) == t
  {
    SampleStart();
    SampleLacks();
    NoPrefixSplits("RUA A, 123 - CEP 13565-000");
  }

  lemma SampleStart()
    ensures "RUA A, 123 - CEP 13565-000"[..3] == "RUA"
    ensures "RUA A, 123 - CEP 13565-000"[3] == ' '
    ensures 'R' !in "RUA A, 123 - CEP 13565-000"[1..]
  {
    assert "RUA A, 123 - CEP 13565-000"[1..] == "UA A, 123 - CEP 13565-000";
  }

  lemma SampleLacks()
    ensures 'V' !in "RUA A, 123 - CEP 13565-000"
    ensures 'L' !in "RUA A, 123 - CEP 13565-000"
    ensures 'T' !in "RUA A, 123 - CEP 13565-000"
    ensures 'O' !in "RUA A, 123 - CEP 13565-000"
    ensures '\U{C7}' !in "RUA A, 123 - CEP 13565-000"
    ensures 'S' !in "RUA A, 123 - CEP 13565-000"
    ensures 'Q' !in "RUA A, 123 - CEP 13565-000"
  {
    SampleLacksV();
    SampleLacksL();
    SampleLacksT();
    SampleLacksO();
    SampleLacksCedilla();
    SampleLacksS();
    SampleLacksQ();
  }

  lemma SampleLacksV()
    ensures 'V' !in "RUA A, 123 - CEP 13565-000"
  {
  }

  lemma SampleLacksL()
    ensures 'L' !in "RUA A, 123 - CEP 13565-000"
  {
  }

  lemma SampleLacksT()
    ensures 'T' !in "RUA A, 123 - CEP 13565-000"
  {
  }

  lemma SampleLacksO()
    ensures 'O' !in "RUA A, 123 - CEP 13565-000"
  {
  }

  lemma SampleLacksCedilla()
    ensures '\U{C7}' !in "RUA A, 123 - CEP 13565-000"
  {
  }

  lemma SampleLacksS()
    ensures 'S' !in "RUA A, 123 - CEP 13565-000"
  {
  }

  lemma SampleLacksQ()
    ensures 'Q' !in "RUA A, 123 - CEP 13565-000"
  {
  }

  /** The prefix passes leave alone a text that starts with `RUA ` and
      lacks the letters that would let any later prefix occur. */
  lemma NoPrefixSplits(t: string)
    requires |t| > 3 && t[..3] == "RUA" && t[3] == ' ' && 'R' !in t[1..]
    requires 'V' !in t && 'L' !in t && 'T' !in t && 'O' !in t && '\U{C7}' !in t && 'S' !in t && 'Q' !in t
    ensures SplitPrefixes(t, Prefixes) == t
  {
    UpToPraca(t);
    FromPraca(t);
  }

  lemma FromPraca(t: string)
    requires |t| > 3 && t[..3] == "RUA" && 'R' !in t[1..]
    requires 'V' !in t && 'L' !in t && 'O' !in t && 'S' !in t && 'Q' !in t
    ensures SplitPrefixes(t, ["PRACA"] + LatePrefixes) == t
  {
    assert t[0] == 'R' by {
      assert t[..3][0] == t[0];
    }
    PracaThenLate(t);
  }

  lemma UpToPraca(t: string)
    requires |t| > 3 && t[..3] == "RUA" && t[3] == ' ' && 'R' !in t[1..]
    requires 'V' !in t && 'L' !in t && 'T' !in t && 'O' !in t && '\U{C7}' !in t
    ensures SplitPrefixes(t, Prefixes) == SplitPrefixes(t, ["PRACA"] + LatePrefixes)
  {
    RuaFirst(t);
    RuaPassKeeps(t);
    EarlyPass(t);
  }

  lemma RuaFirst(t: string)
    ensures SplitPrefixes(t, Prefixes)
         == SplitPrefixes(SplitPrefix(t, "RUA", false), EarlyPrefixes + (["PRACA"] + LatePrefixes))
  {
    PrefixesSplit();
  }

  lemma EarlyPass(t: string)
    requires 'V' !in t && 'L' !in t && 'T' !in t && 'O' !in t && '\U{C7}' !in t
    ensures SplitPrefixes(t, EarlyPrefixes + (["PRACA"] + LatePrefixes)) == SplitPrefixes(t, ["PRACA"] + LatePrefixes)
  {
    SplitPrefixesAppend(t, EarlyPrefixes, ["PRACA"] + LatePrefixes);
    EarlyPrefixesKeep(t);
  }

  lemma PracaThenLate(t: string)
    requires |t| > 0 && t[0] == 'R' && 'R' !in t[1..]
    requires 'V' !in t && 'L' !in t && 'O' !in t && 'S' !in t && 'Q' !in t
    ensures SplitPrefixes(t, ["PRACA"] + LatePrefixes) == t
  {
    var ps := ["PRACA"] + LatePrefixes;
    assert ps[0] == "PRACA" && ps[1..] == LatePrefixes;
    PracaPassKeeps(t);
    LatePrefixesKeep(t);
  }

  const EarlyPrefixes: seq<string> := ["AVENIDA", "AV", "ALAMEDA", "TRAVESSA", "ESTRADA", "RODOVIA", "ROD", "PRA\U{C7}A"]
  const LatePrefixes: seq<string> := ["LARGO", "VIA", "VIELA", "SERVIDAO", "SERVID\U{C3}O", "PARQUE"]

  lemma PrefixesSplit()
    ensures Prefixes[0] == "RUA" && Prefixes[1..] == EarlyPrefixes + (["PRACA"] + LatePrefixes)
  {
  }

  lemma RuaPassKeeps(t: string)
    requires |t| > 3 && t[..3] == "RUA" && t[3] == ' ' && 'R' !in t[1..]
    ensures SplitPrefix(t, "RUA", false) == t
  {
    assert !PrefixMatch(t, "RUA", false);
    AbsentByChar(t[1..], "RUA", 0);
    SplitPrefixAbsent(t[1..], "RUA", true);
    assert t == [t[0]] + t[1..];
  }

  lemma PracaPassKeeps(t: string)
    requires |t| > 0 && t[0] == 'R' && 'R' !in t[1..]
    ensures SplitPrefix(t, "PRACA", false) == t
  {
    assert !StartsWith(t, "PRACA") by {
      if |t| >= 5 {
        assert t[..5][0] == 'R';
      }
    }
    AbsentByChar(t[1..], "PRACA", 1);
    SplitPrefixAbsent(t, "PRACA", false);
  }

  lemma EarlyPrefixesKeep(t: string)
    requires 'V' !in t && 'L' !in t && 'T' !in t && 'O' !in t && '\U{C7}' !in t
    ensures SplitPrefixes(t, EarlyPrefixes) == t
  {
    assert MissingChar(t, "AVENIDA") by { assert 'V' in "AVENIDA"; }
    assert MissingChar(t, "AV") by { assert 'V' in "AV"; }
    assert MissingChar(t, "ALAMEDA") by { assert 'L' in "ALAMEDA"; }
    assert MissingChar(t, "TRAVESSA") by { assert 'T' in "TRAVESSA"; }
    assert MissingChar(t, "ESTRADA") by { assert 'T' in "ESTRADA"; }
    assert MissingChar(t, "RODOVIA") by { assert 'O' in "RODOVIA"; }
    assert MissingChar(t, "ROD") by { assert 'O' in "ROD"; }
    assert MissingChar(t, "PRA\U{C7}A") by { assert '\U{C7}' in "PRA\U{C7}A"; }
    assert forall p :: p in EarlyPrefixes ==> MissingChar(t, p);
    SplitPrefixesMissing(t, EarlyPrefixes);
  }

  lemma LatePrefixesKeep(t: string)
    requires 'V' !in t && 'L' !in t && 'O' !in t && 'S' !in t && 'Q' !in t
    ensures SplitPrefixes(t, LatePrefixes) == t
  {
    assert MissingChar(t, "LARGO") by { assert 'L' in "LARGO"; }
    assert MissingChar(t, "VIA") by { assert 'V' in "VIA"; }
    assert MissingChar(t, "VIELA") by { assert 'V' in "VIELA"; }
    assert MissingChar(t, "SERVIDAO") by { assert 'S' in "SERVIDAO"; }
    assert MissingChar(t, "SERVID\U{C3}O") by { assert 'S' in "SERVID\U{C3}O"; }
    assert MissingChar(t, "PARQUE") by { assert 'Q' in "PARQUE"; }
    assert forall p :: p in LatePrefixes ==> MissingChar(t, p);
    SplitPrefixesMissing(t, LatePrefixes);
  }

  /** `RUA` glued to the street name is split off. */
  lemma SplitRuaExample()
    ensures SplitPrefix("RUAABC, 10", "RUA", false) == "RUA ABC, 10"
  {
    var t := "RUAABC, 10";
    assert t[..3] == "RUA" && PrefixMatch(t, "RUA", false);
    var u := t[3..];
    assert u == "ABC, 10";
    RestLacksR();
    AbsentByChar(u, "RUA", 0);
    SplitPrefixAbsent(u, "RUA", true);
  }

  lemma RestLacksR()
    ensures 'R' !in "ABC, 10"
  {
  }

  /** `AVENIDA X` survives its own pass, since a space follows, but the
      later `AV` pass splits it. */
  lemma {:induction false} SplitAvenidaExample()
    ensures SplitPrefix("AVENIDA X", "AVENIDA", false) == "AVENIDA X"
    ensures SplitPrefix("AVENIDA X", "AV", false) == "AV ENIDA X"
  {
    AvenidaPassKeeps();
    AvPassSplits("AVENIDA X");
  }

  lemma AvenidaPassKeeps()
    ensures SplitPrefix("AVENIDA X", "AVENIDA", false) == "AVENIDA X"
  {
    var t := "AVENIDA X";
    assert !IsUpperAlnum(t[7]) && !PrefixMatch(t, "AVENIDA", false);
    assert t[1..][..7] == "VENIDA " && !PrefixMatch(t[1..], "AVENIDA", true);
    SplitPrefixShort(t[2..], "AVENIDA", true);
    assert SplitPrefix(t[1..], "AVENIDA", true) == t[1..];
    assert t == [t[0]] + t[1..];
  }

  lemma AvPassSplits(t: string)
    requires t == "AVENIDA X"
    ensures SplitPrefix(t, "AV", false) == "AV ENIDA X"
  {
    assert t[..2] == "AV" && PrefixMatch(t, "AV", false);
    assert SplitPrefix(t, "AV", false) == "AV" + " " + SplitPrefix(t[2..], "AV", true);
    assert t[2..] == "ENIDA" + " X";
    WordRunKept("ENIDA", " X", "AV");
    SplitPrefixShort(" X", "AV", true);
    JoinAvenida();
  }

  lemma JoinAvenida()
    ensures "AV" + " " + ("ENIDA" + " X") == "AV ENIDA X"
  {
  }

  /** The whole prefix loop on `AVENIDA BRASIL`: the `AVENIDA` pass keeps
      it, since a space follows, and the later `AV` pass splits it; no other
      prefix occurs. */
  lemma AvenidaBrasilExample()
    ensures SplitPrefixes("AVENIDA BRASIL", Prefixes) == "AV ENIDA BRASIL"
  {
    AvenidaBrasil("AVENIDA BRASIL", "AV ENIDA BRASIL");
  }

  /** The prefixes after `AV`. */
  const AfterAv: seq<string> := [
    "ALAMEDA", "TRAVESSA", "ESTRADA", "RODOVIA", "ROD", "PRA\U{C7}A", "PRACA",
    "LARGO", "VIA", "VIELA", "SERVIDAO", "SERVID\U{C3}O", "PARQUE"
  ]

  lemma AvenidaBrasil(t: string, u: string)
    requires t == "AVENIDA BRASIL" && u == "AV ENIDA BRASIL"
    ensures SplitPrefixes(t, Prefixes) == u
  {
    PrefixesAtAv();
    FirstThreePasses(t, AfterAv);
    BrasilRuaPass(t);
    BrasilAvenidaPass(t);
    BrasilAvPass(t, u);
    AfterAvKeeps(u);
  }

  lemma PrefixesAtAv()
    ensures Prefixes == ["RUA", "AVENIDA", "AV"] + AfterAv
  {
  }

  lemma FirstThreePasses(t: string, ps: seq<string>)
    ensures SplitPrefixes(t, ["RUA", "AVENIDA", "AV"] + ps)
         == SplitPrefixes(SplitPrefix(SplitPrefix(SplitPrefix(t, "RUA", false), "AVENIDA", false), "AV", false), ps)
  {
    var xs := ["RUA", "AVENIDA", "AV"] + ps;
    var ys, zs := xs[1..], xs[2..];
    var t1 := SplitPrefix(t, "RUA", false);
    var t2 := SplitPrefix(t1, "AVENIDA", false);
    assert xs[0] == "RUA" && ys[0] == "AVENIDA" && zs[0] == "AV";
    assert ys[1..] == zs && zs[1..] == ps;
    assert SplitPrefixes(t, xs) == SplitPrefixes(t1, ys);
    assert SplitPrefixes(t1, ys) == SplitPrefixes(t2, zs);
  }

  lemma BrasilRuaPass(t: string)
    requires t == "AVENIDA BRASIL"
    ensures SplitPrefix(t, "RUA", false) == t
  {
    AbsentByChar(t, "RUA", 1);
    SplitPrefixAbsent(t, "RUA", false);
  }

  lemma BrasilAvenidaPass(t: string)
    requires t == "AVENIDA BRASIL"
    ensures SplitPrefix(t, "AVENIDA", false) == t
  {
    AvenidaBeforeSpace(t);
    var r := t[1..];
    assert r == "VENIDA BRASIL";
    VenidaKeeps(r);
    assert t == [t[0]] + r;
  }

  /** A space follows `AVENIDA`, so `\bAVENIDA(?=[A-Z0-9])` does not match. */
  lemma AvenidaBeforeSpace(t: string)
    requires t == "AVENIDA BRASIL"
    ensures !PrefixMatch(t, "AVENIDA", false)
  {
    assert t[7] == ' ';
  }

  lemma VenidaKeeps(r: string)
    requires r == "VENIDA BRASIL"
    ensures SplitPrefix(r, "AVENIDA", true) == r
  {
    var q := r[1..];
    assert 'V' !in q;
    AbsentByChar(q, "AVENIDA", 1);
    assert r[0] != 'A';
    SplitPrefixAbsent(r, "AVENIDA", true);
  }

  lemma BrasilAvPass(t: string, u: string)
    requires t == "AVENIDA BRASIL" && u == "AV ENIDA BRASIL"
    ensures SplitPrefix(t, "AV", false) == u
  {
    assert t[..2] == "AV" && PrefixMatch(t, "AV", false);
    var r := t[2..];
    assert r == "ENIDA BRASIL";
    BrasilAvTail(r);
    JoinAvenidaBrasil(r, u);
  }

  /** Past the split, `AV` no longer occurs. */
  lemma BrasilAvTail(r: string)
    requires r == "ENIDA BRASIL"
    ensures SplitPrefix(r, "AV", true) == r
  {
    assert 'V' !in r;
    AbsentByChar(r, "AV", 1);
    SplitPrefixAbsent(r, "AV", true);
  }

  lemma JoinAvenidaBrasil(r: string, u: string)
    requires r == "ENIDA BRASIL" && u == "AV ENIDA BRASIL"
    ensures "AV" + " " + r == u
  {
  }

  lemma AfterAvKeeps(u: string)
    requires u == "AV ENIDA BRASIL"
    ensures SplitPrefixes(u, AfterAv) == u
  {
    AfterAvAbsent(u);
    SplitPrefixesAbsent(u, AfterAv);
  }

  /** None of the prefixes after `AV` occurs in `AV ENIDA BRASIL`: each has a
      letter the text lacks, except `VIA` and `VIELA`, whose `VI` it lacks. */
  lemma AfterAvAbsent(u: string)
    requires u == "AV ENIDA BRASIL"
    ensures forall p :: p in AfterAv ==> !Contains(u, p)
  {
    AbsentPastAlameda(u);
    AbsentFromLargo(u);
  }

  lemma AbsentPastAlameda(u: string)
    requires u == "AV ENIDA BRASIL"
    ensures !Contains(u, "ALAMEDA") && !Contains(u, "TRAVESSA") && !Contains(u, "ESTRADA")
    ensures !Contains(u, "RODOVIA") && !Contains(u, "ROD")
    ensures !Contains(u, "PRA\U{C7}A") && !Contains(u, "PRACA")
  {
    AbsentUpToEstrada(u);
    AbsentFromRodovia(u);
  }

  lemma AbsentUpToEstrada(u: string)
    requires u == "AV ENIDA BRASIL"
    ensures !Contains(u, "ALAMEDA") && !Contains(u, "TRAVESSA") && !Contains(u, "ESTRADA")
  {
    assert 'M' !in u && 'T' !in u;
    AbsentByChar(u, "ALAMEDA", 3);
    AbsentByChar(u, "TRAVESSA", 0);
    AbsentByChar(u, "ESTRADA", 2);
  }

  lemma AbsentFromRodovia(u: string)
    requires u == "AV ENIDA BRASIL"
    ensures !Contains(u, "RODOVIA") && !Contains(u, "ROD")
    ensures !Contains(u, "PRA\U{C7}A") && !Contains(u, "PRACA")
  {
    assert 'O' !in u && '\U{C7}' !in u && 'C' !in u;
    AbsentByChar(u, "RODOVIA", 1);
    AbsentByChar(u, "ROD", 1);
    AbsentByChar(u, "PRA\U{C7}A", 3);
    AbsentByChar(u, "PRACA", 3);
  }

  lemma AbsentFromLargo(u: string)
    requires u == "AV ENIDA BRASIL"
    ensures !Contains(u, "LARGO") && !Contains(u, "VIA") && !Contains(u, "VIELA")
    ensures !Contains(u, "SERVIDAO") && !Contains(u, "SERVID\U{C3}O") && !Contains(u, "PARQUE")
  {
    AbsentLetters(u);
    VNotBeforeI(u);
    AbsentByPair(u, "VIA");
    AbsentByPair(u, "VIELA");
  }

  lemma AbsentLetters(u: string)
    requires u == "AV ENIDA BRASIL"
    ensures !Contains(u, "LARGO") && !Contains(u, "SERVIDAO")
    ensures !Contains(u, "SERVID\U{C3}O") && !Contains(u, "PARQUE")
  {
    assert 'G' !in u && 'O' !in u && '\U{C3}' !in u && 'Q' !in u;
    AbsentByChar(u, "LARGO", 3);
    AbsentByChar(u, "SERVIDAO", 7);
    AbsentByChar(u, "SERVID\U{C3}O", 6);
    AbsentByChar(u, "PARQUE", 3);
  }

  lemma VNotBeforeI(u: string)
    requires u == "AV ENIDA BRASIL"
    ensures NoPair(u, 'V', 'I')
  {
    var r := u[2..];
    assert 'V' !in r;
    NoPairWithout(r, 'V', 'I');
    assert u[1..][1..] == r;
  }

  /** The `ROD` pass splits `RODOVIA`. */
  lemma SplitRodoviaExample()
    ensures SplitPrefix("RODOVIA", "ROD", false) == "ROD OVIA"
  {
    RodPassSplits("RODOVIA");
  }

  lemma RodPassSplits(t: string)
    requires t == "RODOVIA"
    ensures SplitPrefix(t, "ROD", false) == "ROD OVIA"
  {
    assert t[..3] == "ROD" && PrefixMatch(t, "ROD", false);
    assert SplitPrefix(t, "ROD", false) == "ROD" + " " + SplitPrefix(t[3..], "ROD", true);
    assert t[3..] == "OVIA" + "";
    WordRunKept("OVIA", "", "ROD");
    assert "ROD" + " " + ("OVIA" + "") == "ROD OVIA";
  }
}
