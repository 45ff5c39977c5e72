/** The camel zakat table of zakat_utils.py (`calculate_zakat`): a fixed
    table of bands up to 200 camels and, above 200, a cycle of 50 camels in
    which every full cycle adds one ḥiqqah and the position inside the cycle
    adds goats or a young camel. */
module Zakat {
  import opened Wrappers
  import opened Text

  const Invalid: string := "Invalid input"
  const Hiqqahs: string := " ḥiqqahs (3 y/o camel)"

  /** The answers of the table, band by band. */
  const OneGoat: string := "1 goat"
  const TwoGoats: string := "2 goats"
  const ThreeGoats: string := "3 goats"
  const FourGoats: string := "4 goats"
  const BintMakhad: string := "1 bint makhāḍ (1 y/o camel)"
  const BintLabun: string := "1 bint labūn (2 y/o camel)"
  const Hiqqah: string := "1 ḥiqqah (3 y/o camel)"
  const Jadhaah: string := "1 jadha'ah (4 y/o camel)"
  const TwoBintLabuns: string := "2 bint labūns (2 y/o camel)"
  const TwoHiqqahs: string := "2 ḥiqqahs (3 y/o camel)"
  const OneGoatTwoHiqqahs: string := "1 goat + 2 ḥiqqahs (3 y/o camel)"
  const TwoGoatsTwoHiqqahs: string := "2 goats + 2 ḥiqqahs (3 y/o camel)"
  const ThreeGoatsTwoHiqqahs: string := "3 goats + 2 ḥiqqahs (3 y/o camel)"
  const FourGoatsTwoHiqqahs: string := "4 goats + 2 ḥiqqahs (3 y/o camel)"
  const BintMakhadTwoHiqqahs: string := "1 bint makhāḍ (1 y/o camel) + 2 ḥiqqahs (3 y/o camel)"
  const ThreeHiqqahs: string := "3 ḥiqqahs (3 y/o camel)"
  const OneGoatThreeHiqqahs: string := "1 goat + 3 ḥiqqahs (3 y/o camel)"
  const TwoGoatsThreeHiqqahs: string := "2 goats + 3 ḥiqqahs (3 y/o camel)"
  const ThreeGoatsThreeHiqqahs: string := "3 goats + 3 ḥiqqahs (3 y/o camel)"
  const FourGoatsThreeHiqqahs: string := "4 goats + 3 ḥiqqahs (3 y/o camel)"
  const BintMakhadThreeHiqqahs: string := "1 bint makhāḍ (1 y/o camel) + 3 ḥiqqahs (3 y/o camel)"
  const BintLabunThreeHiqqahs: string := "1 bint labūn (2 y/o camel) + 3 ḥiqqahs (3 y/o camel)"
  const FourHiqqahs: string := "4 ḥiqqahs (3 y/o camel)"

  /** `f"{4 + additional_cycles} ḥiqqahs (3 y/o camel)"`: the count in
      decimal digits, then the label. */
  function Base(hiqqahs: nat): (r: string)
    ensures |r| > |Hiqqahs| && IsDigit(r[0])
    ensures r[|r| - |Hiqqahs|..] == Hiqqahs
    ensures forall i :: 0 <= i < |r| - |Hiqqahs| ==> IsDigit(r[i])
    ensures DigitsValue(r[..|r| - |Hiqqahs|]) == hiqqahs
  {
    var n := NatToString(hiqqahs);
    NatToStringValue(hiqqahs);
    assert (n + Hiqqahs)[..|n|] == n;
    n + Hiqqahs
  }

  /** What the position inside a 50-camel cycle adds to the base. */
  function Extra(pos: int): string {
    if pos <= 4 then ""
    else if 5 <= pos <= 9 then " + 1 goat"
    else if 10 <= pos <= 14 then " + 2 goats"
    else if 15 <= pos <= 19 then " + 3 goats"
    else if 20 <= pos <= 24 then " + 4 goats"
    else if 25 <= pos <= 35 then " + 1 bint makhāḍ (1 y/o camel)"
    else if 36 <= pos <= 45 then " + 1 bint labūn (2 y/o camel)"
    else ""
  }

  /** `calculate_zakat(camel_count)` as written: the branches of the table
      leave 121 to 124 uncovered, which fall through to "Invalid input". */
  function CalculateZakatAsWritten(camelCount: int): (r: string)
    ensures camelCount <= 4 ==> r == "0 zakat"
  {
    if camelCount <= 4 then "0 zakat"
    else if 5 <= camelCount <= 9 then OneGoat
    else if 10 <= camelCount <= 14 then TwoGoats
    else if 15 <= camelCount <= 19 then ThreeGoats
    else if 20 <= camelCount <= 24 then FourGoats
    else if 25 <= camelCount <= 35 then BintMakhad
    else if 36 <= camelCount <= 45 then BintLabun
    else if 46 <= camelCount <= 60 then Hiqqah
    else if 61 <= camelCount <= 75 then Jadhaah
    else if 76 <= camelCount <= 90 then TwoBintLabuns
    else if 91 <= camelCount <= 120 then TwoHiqqahs
    else if 125 <= camelCount <= 129 then OneGoatTwoHiqqahs
    else if 130 <= camelCount <= 134 then TwoGoatsTwoHiqqahs
    else if 135 <= camelCount <= 139 then ThreeGoatsTwoHiqqahs
    else if 140 <= camelCount <= 144 then FourGoatsTwoHiqqahs
    else if 145 <= camelCount <= 149 then BintMakhadTwoHiqqahs
    else if 150 <= camelCount <= 154 then ThreeHiqqahs
    else if 155 <= camelCount <= 159 then OneGoatThreeHiqqahs
    else if 160 <= camelCount <= 164 then TwoGoatsThreeHiqqahs
    else if 165 <= camelCount <= 169 then ThreeGoatsThreeHiqqahs
    else if 170 <= camelCount <= 174 then FourGoatsThreeHiqqahs
    else if 175 <= camelCount <= 185 then BintMakhadThreeHiqqahs
    else if 186 <= camelCount <= 195 then BintLabunThreeHiqqahs
    else if 196 <= camelCount <= 200 then FourHiqqahs
    else if camelCount > 200 then
      var additionalCycles := (camelCount - 200) / 50;
      var baseZakat := Base(4 + additionalCycles);
      var cyclePosition := (camelCount - 150) % 50;
      if cyclePosition <= 4 then baseZakat
      else if 5 <= cyclePosition <= 9 then baseZakat + " + 1 goat"
      else if 10 <= cyclePosition <= 14 then baseZakat + " + 2 goats"
      else if 15 <= cyclePosition <= 19 then baseZakat + " + 3 goats"
      else if 20 <= cyclePosition <= 24 then baseZakat + " + 4 goats"
      else if 25 <= cyclePosition <= 35 then baseZakat + " + 1 bint makhāḍ (1 y/o camel)"
      else if 36 <= cyclePosition <= 45 then baseZakat + " + 1 bint labūn (2 y/o camel)"
      else baseZakat
    else Invalid
  }

  /** One row of the table up to 200 camels. */
  datatype Band = Band(lo: int, hi: int, zakat: string)

  /** The table the branches up to 200 camels follow, band by band. */
  const Table: seq<Band> := [
    Band(5, 9, OneGoat),
    Band(10, 14, TwoGoats),
    Band(15, 19, ThreeGoats),
    Band(20, 24, FourGoats),
    Band(25, 35, BintMakhad),
    Band(36, 45, BintLabun),
    Band(46, 60, Hiqqah),
    Band(61, 75, Jadhaah),
    Band(76, 90, TwoBintLabuns),
    Band(91, 120, TwoHiqqahs),
    Band(125, 129, OneGoatTwoHiqqahs),
    Band(130, 134, TwoGoatsTwoHiqqahs),
    Band(135, 139, ThreeGoatsTwoHiqqahs),
    Band(140, 144, FourGoatsTwoHiqqahs),
    Band(145, 149, BintMakhadTwoHiqqahs),
    Band(150, 154, ThreeHiqqahs),
    Band(155, 159, OneGoatThreeHiqqahs),
    Band(160, 164, TwoGoatsThreeHiqqahs),
    Band(165, 169, ThreeGoatsThreeHiqqahs),
    Band(170, 174, FourGoatsThreeHiqqahs),
    Band(175, 185, BintMakhadThreeHiqqahs),
    Band(186, 195, BintLabunThreeHiqqahs),
    Band(196, 200, FourHiqqahs)
  ]

  /** The zakat of the first band of `bands` that holds `c`. */
  function Lookup(bands: seq<Band>, c: int): Option<string>
    decreases |bands|
  {
    if bands == [] then None
    else if bands[0].lo <= c <= bands[0].hi then Some(bands[0].zakat)
    else Lookup(bands[1..], c)
  }

  /** `Lookup` finds a band exactly when one holds the count, and then
      answers with the zakat of a band that holds it. */
  lemma {:induction false} LookupSpec(bands: seq<Band>, c: int)
    ensures Lookup(bands, c).None? <==> forall i :: 0 <= i < |bands| ==> !(bands[i].lo <= c <= bands[i].hi)
    ensures Lookup(bands, c).Some? ==>
              exists i :: 0 <= i < |bands| && bands[i].lo <= c <= bands[i].hi && Lookup(bands, c).value == bands[i].zakat
    decreases |bands|
  {
    if bands != [] && !(bands[0].lo <= c <= bands[0].hi) {
      LookupSpec(bands[1..], c);
      assert forall i :: 1 <= i < |bands| ==> bands[i] == bands[1..][i - 1];
      if Lookup(bands, c).Some? {
        var i :| 0 <= i < |bands[1..]| && bands[1..][i].lo <= c <= bands[1..][i].hi && Lookup(bands, c).value == bands[1..][i].zakat;
        assert bands[i + 1] == bands[1..][i];
      }
    }
  }

  /** Each band is well formed and lies below the next one. */
  predicate Adjacent(bands: seq<Band>) {
    && (forall i :: 0 <= i < |bands| ==> bands[i].lo <= bands[i].hi)
    && (forall i :: 0 <= i < |bands| - 1 ==> bands[i].hi < bands[i + 1].lo)
  }

  /** Every band lies below every later one. */
  predicate Ordered(bands: seq<Band>) {
    && (forall i :: 0 <= i < |bands| ==> bands[i].lo <= bands[i].hi)
    && (forall i, j :: 0 <= i < j < |bands| ==> bands[i].hi < bands[j].lo)
  }

  lemma {:induction false} AdjacentOrdered(bands: seq<Band>)
    requires Adjacent(bands)
    ensures Ordered(bands)
    decreases |bands|
  {
    if |bands| > 1 {
      var rest := bands[1..];
      assert Adjacent(rest) by {
        forall i | 0 <= i < |rest| - 1 ensures rest[i].hi < rest[i + 1].lo {
          assert rest[i] == bands[i + 1] && rest[i + 1] == bands[i + 2];
        }
      }
      AdjacentOrdered(rest);
      forall i, j | 0 <= i < j < |bands| ensures bands[i].hi < bands[j].lo {
        if i > 0 {
          assert bands[i] == rest[i - 1] && bands[j] == rest[j - 1];
        } else if j > 1 {
          assert bands[1] == rest[0] && bands[j] == rest[j - 1];
        }
      }
    }
  }

  /** The bands are in ascending order and do not overlap, so a count lies
      in at most one of them. */
  lemma TableOrdered()
    ensures Ordered(Table)
  {
    assert Adjacent(Table);
    AdjacentOrdered(Table);
  }

  /** In ordered bands, a count inside band `k` finds that band's zakat. */
  lemma {:induction false} LookupAt(bands: seq<Band>, k: nat, c: int)
    requires Ordered(bands) && k < |bands| && bands[k].lo <= c <= bands[k].hi
    ensures Lookup(bands, c) == Some(bands[k].zakat)
    decreases k
  {
    if k > 0 {
      assert bands[0].hi < bands[k].lo;
      var rest := bands[1..];
      assert Ordered(rest) by {
        forall i, j | 0 <= i < j < |rest| ensures rest[i].hi < rest[j].lo {
          assert rest[i] == bands[i + 1] && rest[j] == bands[j + 1];
        }
      }
      assert rest[k - 1] == bands[k];
      LookupAt(rest, k - 1, c);
    }
  }

  /** In ordered bands, a count strictly between bands `k - 1` and `k`
      finds none. */
  lemma LookupGap(bands: seq<Band>, k: nat, c: int)
    requires Ordered(bands) && 0 < k < |bands| && bands[k - 1].hi < c < bands[k].lo
    ensures Lookup(bands, c) == None
  {
    LookupSpec(bands, c);
    forall i | 0 <= i < |bands| ensures !(bands[i].lo <= c <= bands[i].hi) {
      if i < k - 1 {
        assert bands[i].hi < bands[k - 1].lo;
      } else if i > k {
        assert bands[k].hi < bands[i].lo;
      }
    }
  }

  /** The branches up to 200 camels are the table: a count from 5 to 200
      gets the zakat of its band, and exactly the counts 121 to 124 have
      none. */
  lemma AsWrittenFollowsTable(c: int)
    requires 5 <= c <= 200
    ensures Lookup(Table, c).None? <==> 121 <= c <= 124
    ensures Lookup(Table, c).Some? ==> CalculateZakatAsWritten(c) == Lookup(Table, c).value
  {
    if c <= 19 {
      TableUpTo19(c);
    } else if c <= 45 {
      TableUpTo45(c);
    } else if c <= 90 {
      TableUpTo90(c);
    } else if c <= 129 {
      TableUpTo129(c);
    } else if c <= 144 {
      TableUpTo144(c);
    } else if c <= 159 {
      TableUpTo159(c);
    } else if c <= 174 {
      TableUpTo174(c);
    } else {
      TableUpTo200(c);
    }
  }

  /** The table lemma for counts from 5 to 19. */
  lemma TableUpTo19(c: int)
    requires 5 <= c <= 19
    ensures Lookup(Table, c).Some? && CalculateZakatAsWritten(c) == Lookup(Table, c).value
  {
    TableOrdered();
    if c <= 9 {
      LookupAt(Table, 0, c);
    } else if c <= 14 {
      LookupAt(Table, 1, c);
    } else {
      LookupAt(Table, 2, c);
    }
  }

  /** The table lemma for counts from 20 to 45. */
  lemma TableUpTo45(c: int)
    requires 20 <= c <= 45
    ensures Lookup(Table, c).Some? && CalculateZakatAsWritten(c) == Lookup(Table, c).value
  {
    TableOrdered();
    if c <= 24 {
      LookupAt(Table, 3, c);
    } else if c <= 35 {
      LookupAt(Table, 4, c);
    } else {
      LookupAt(Table, 5, c);
    }
  }

  /** The table lemma for counts from 46 to 90. */
  lemma TableUpTo90(c: int)
    requires 46 <= c <= 90
    ensures Lookup(Table, c).Some? && CalculateZakatAsWritten(c) == Lookup(Table, c).value
  {
    TableOrdered();
    if c <= 60 {
      LookupAt(Table, 6, c);
    } else if c <= 75 {
      LookupAt(Table, 7, c);
    } else {
      LookupAt(Table, 8, c);
    }
  }

  /** The table lemma for counts from 91 to 129. */
  lemma TableUpTo129(c: int)
    requires 91 <= c <= 129
    ensures Lookup(Table, c).None? <==> 121 <= c <= 124
    ensures Lookup(Table, c).Some? ==> CalculateZakatAsWritten(c) == Lookup(Table, c).value
  {
    TableOrdered();
    if c <= 120 {
      LookupAt(Table, 9, c);
    } else if c <= 124 {
      LookupGap(Table, 10, c);
    } else {
      LookupAt(Table, 10, c);
    }
  }

  /** The table lemma for counts from 130 to 144. */
  lemma TableUpTo144(c: int)
    requires 130 <= c <= 144
    ensures Lookup(Table, c).Some? && CalculateZakatAsWritten(c) == Lookup(Table, c).value
  {
    TableOrdered();
    if c <= 134 {
      LookupAt(Table, 11, c);
    } else if c <= 139 {
      LookupAt(Table, 12, c);
    } else {
      LookupAt(Table, 13, c);
    }
  }

  /** The table lemma for counts from 145 to 159. */
  lemma TableUpTo159(c: int)
    requires 145 <= c <= 159
    ensures Lookup(Table, c).Some? && CalculateZakatAsWritten(c) == Lookup(Table, c).value
  {
    TableOrdered();
    if c <= 149 {
      LookupAt(Table, 14, c);
    } else if c <= 154 {
      LookupAt(Table, 15, c);
    } else {
      LookupAt(Table, 16, c);
    }
  }

  /** The table lemma for counts from 160 to 174. */
  lemma TableUpTo174(c: int)
    requires 160 <= c <= 174
    ensures Lookup(Table, c).Some? && CalculateZakatAsWritten(c) == Lookup(Table, c).value
  {
    TableOrdered();
    if c <= 164 {
      LookupAt(Table, 17, c);
    } else if c <= 169 {
      LookupAt(Table, 18, c);
    } else {
      LookupAt(Table, 19, c);
    }
  }

  /** The table lemma for counts from 175 to 200. */
  lemma TableUpTo200(c: int)
    requires 175 <= c <= 200
    ensures Lookup(Table, c).Some? && CalculateZakatAsWritten(c) == Lookup(Table, c).value
  {
    TableOrdered();
    if c <= 185 {
      LookupAt(Table, 20, c);
    } else if c <= 195 {
      LookupAt(Table, 21, c);
    } else {
      LookupAt(Table, 22, c);
    }
  }

  /** The gap: counts 121 to 124 match no branch. */
  lemma AsWrittenGap(c: int)
    requires 121 <= c <= 124
    ensures CalculateZakatAsWritten(c) == Invalid
  {
  }

  /** Above 200 camels the answer is the base of `4 + (c - 200) / 50`
      ḥiqqahs followed by what the cycle position adds. */
  lemma AboveTable(c: int)
    requires c > 200
    ensures CalculateZakatAsWritten(c) == Base(4 + (c - 200) / 50) + Extra((c - 150) % 50)
  {
  }

  /** Above 200 camels the cycle position lies in 0..49, and the positions
      0 to 4 and 46 to 49 add nothing to the base. */
  lemma CyclePosition(c: int)
    requires c > 200
    ensures 0 <= (c - 150) % 50 < 50
    ensures var pos := (c - 150) % 50;
            pos <= 4 || pos >= 46 ==> CalculateZakatAsWritten(c) == Base(4 + (c - 200) / 50)
  {
    AboveTable(c);
  }

  /** Fifty more camels above 200 give one more ḥiqqah with the same extra. */
  lemma CycleRepeats(c: int)
    requires c > 200
    ensures CalculateZakatAsWritten(c + 50) == Base(5 + (c - 200) / 50) + Extra((c - 150) % 50)
  {
    AboveTable(c + 50);
    CycleShift(c);
  }

  lemma CycleShift(c: int)
    requires c > 200
    ensures (c + 50 - 200) / 50 == (c - 200) / 50 + 1
    ensures (c + 50 - 150) % 50 == (c - 150) % 50
  {
  }

  /** The base of a count above 200 begins with its number of ḥiqqahs. */
  lemma BaseDigits(c: int)
    requires c > 200
    ensures var r := CalculateZakatAsWritten(c);
            var n := NatToString(4 + (c - 200) / 50);
            |n| < |r| && r[..|n|] == n && r[|n|..|n| + |Hiqqahs|] == Hiqqahs
  {
    var n := NatToString(4 + (c - 200) / 50);
    var r := CalculateZakatAsWritten(c);
    AboveTable(c);
    assert r == n + Hiqqahs + Extra((c - 150) % 50);
  }

  /** "Invalid input" comes out exactly for 121 to 124. */
  lemma AsWrittenInvalid(c: int)
    ensures CalculateZakatAsWritten(c) == Invalid <==> 121 <= c <= 124
  {
    if c > 200 {
      var r := CalculateZakatAsWritten(c);
      AboveTable(c);
      assert IsDigit(r[0]);
      assert !IsDigit(Invalid[0]);
    }
  }

  /** The count 121..124 is evidently meant to stay in the two-ḥiqqah band
      (the extras only start at 125): the corrected table. */
  function CalculateZakat(camelCount: int): (r: string)
    ensures camelCount <= 4 ==> r == "0 zakat"
    ensures !(121 <= camelCount <= 124) ==> r == CalculateZakatAsWritten(camelCount)
  {
    if 121 <= camelCount <= 124 then TwoHiqqahs
    else CalculateZakatAsWritten(camelCount)
  }

  /** The corrected function is total: no count gives "Invalid input", and
      every count from 91 to 124 gives two ḥiqqahs. */
  lemma CalculateZakatTotal(c: int)
    ensures CalculateZakat(c) != Invalid
    ensures 91 <= c <= 124 ==> CalculateZakat(c) == TwoHiqqahs
  {
    AsWrittenInvalid(c);
  }
}
