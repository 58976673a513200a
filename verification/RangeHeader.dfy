/** The single-range request header of `risepir-http/src/node.rs`, as the server reads it and the client writes it. */
module RangeHeader {
  import opened Words
  import opened Decimals

  datatype RangeOutcome = Unsupported | Unsatisfiable | Satisfiable(first: nat, last: nat)

  const BYTES_UNIT: string := "bytes="

  /** A single `bytes=<first>-[<last>]`, against a resource of `total` bytes. */
  function ParseRange(raw: string, total: nat): (r: RangeOutcome)
    ensures r.Satisfiable? ==> r.first <= r.last < total
  {
    if !(BYTES_UNIT <= raw) then Unsupported
    else
      var spec := raw[|BYTES_UNIT|..];
      var dash := IndexOf(spec, '-');
      if ',' in spec || dash == |spec| || dash == 0 then Unsupported
      else match ParseU64(spec[..dash])
        case None => Unsupported
        case Some(first) =>
          var rest := spec[dash + 1..];
          if first >= total then Unsatisfiable
          else if rest == "" then Satisfiable(first, total - 1)
          else match ParseU64(rest)
            case Some(last) => if last >= first then Satisfiable(first, Min(last, total - 1)) else Unsupported
            case None => Unsupported
  }

  /** The header the client sends to resume at `off`. */
  function OpenRange(off: nat): string {
    BYTES_UNIT + Decimal(off) + "-"
  }

  /** The server reads a resume header as exactly the rest of the bundle. */
  lemma ParseOpenRange(off: nat, total: nat)
    requires off < TWO_64
    ensures ParseRange(OpenRange(off), total) == if off >= total then Unsatisfiable else Satisfiable(off, total - 1)
  {
    var raw := OpenRange(off);
    var spec := raw[|BYTES_UNIT|..];
    assert spec == Decimal(off) + "-";
    var dash := IndexOf(spec, '-');
    assert spec[|Decimal(off)|] == '-';
    forall i | 0 <= i < |Decimal(off)| ensures spec[i] != '-' {
      assert spec[i] in Decimal(off);
    }
    assert dash == |Decimal(off)|;
    assert spec[..dash] == Decimal(off) && spec[dash + 1..] == "";
    assert Decimal(off)[0] in Decimal(off);
    DecimalValue(off);
    assert ',' !in spec by {
      forall i | 0 <= i < |spec| ensures spec[i] != ',' {
        assert |spec| == dash + 1;
        if i < dash { assert spec[i] in Decimal(off); }
      }
    }
    assert raw[..|BYTES_UNIT|] == BYTES_UNIT;
  }

  /** The whole reading of `bytes=<first>-<rest>`. */
  lemma RangeMeaning(first: string, rest: string, total: nat)
    requires '-' !in first
    ensures ParseRange("bytes=" + first + "-" + rest, total) ==
      if ',' in first || ',' in rest || ParseU64(first).None? then Unsupported
      else if ParseU64(first).value >= total then Unsatisfiable
      else if rest == "" then Satisfiable(ParseU64(first).value, total - 1)
      else if ParseU64(rest).None? || ParseU64(rest).value < ParseU64(first).value then Unsupported
      else Satisfiable(ParseU64(first).value, Min(ParseU64(rest).value, total - 1))
  {
    hide ParseU64, IndexOf;
    var raw := "bytes=" + first + "-" + rest;
    var spec := first + "-" + rest;
    assert BYTES_UNIT <= raw && raw[|BYTES_UNIT|..] == spec;
    assert spec[|first|] == '-' && forall k :: 0 <= k < |first| ==> spec[k] == first[k] && first[k] in first;
    assert IndexOf(spec, '-') == |first|;
    assert spec[..|first|] == first && spec[|first| + 1..] == rest;
    EmptyIsNoNumber();
  }

  lemma EmptyIsNoNumber()
    ensures ParseU64("").None?
  {
  }

  /** Anything of another form is not a range this server supports. */
  lemma OtherRanges(raw: string, total: nat)
    requires |raw| < 6 || raw[..6] != "bytes=" || '-' !in raw[6..]
    ensures ParseRange(raw, total) == Unsupported
  {
    if |raw| >= 6 {
      IndexMissing(raw[6..], '-');
    }
  }

  /** A closed range in numbers: clamped to the resource, refused past its end, and ignored when it runs backwards. */
  lemma ClosedRange(first: nat, last: nat, total: nat)
    requires first < TWO_64 && last < TWO_64
    ensures ParseRange("bytes=" + Decimal(first) + "-" + Decimal(last), total) ==
      if first >= total then Unsatisfiable else if last < first then Unsupported else Satisfiable(first, Min(last, total - 1))
  {
    hide ParseU64, Decimal, ParseRange;
    assert !IsDigit('-') && !IsDigit(',');
    RangeMeaning(Decimal(first), Decimal(last), total);
    DecimalParses(first);
    DecimalParses(last);
  }
}
