/**
 * The billing section of the patient custom report when encounters were
 * picked: every charge of every picked encounter is listed (as a CSV row
 * in a CSV export), the fees are summed into a total, the fees of COPAY
 * charges into the copays, and the section ends with Sub-Total, Paid and
 * Total (interface/patient_file/report/custom_report.php).
 * Fees are PHP floats; here they are exact reals.
 */
module Billing {
  import opened Options
  import opened Text
  import Csv

  /** One billing row of an encounter: the columns the section reads. */
  datatype Charge = Charge(date: string, codeType: string, code: string, codeText: string, modifier: string, fee: real)

  predicate IsCopay(c: Charge)
  {
    c.codeType == "COPAY"
  }

  /** The sum of all fees. */
  function Fees(cs: seq<Charge>): real
    decreases |cs|
  {
    if cs == [] then 0.0 else Fees(cs[..|cs| - 1]) + cs[|cs| - 1].fee
  }

  /** The sum of the fees of COPAY charges. */
  function CopayFees(cs: seq<Charge>): real
    decreases |cs|
  {
    if cs == [] then 0.0
    else CopayFees(cs[..|cs| - 1]) + (if IsCopay(cs[|cs| - 1]) then cs[|cs| - 1].fee else 0.0)
  }

  /** The sum of the fees of every other charge. */
  function ChargeFees(cs: seq<Charge>): real
    decreases |cs|
  {
    if cs == [] then 0.0
    else ChargeFees(cs[..|cs| - 1]) + (if IsCopay(cs[|cs| - 1]) then 0.0 else cs[|cs| - 1].fee)
  }

  /** The charges of the picked encounters, encounter after encounter. */
  function Flatten(encounters: seq<seq<Charge>>): seq<Charge>
    decreases |encounters|
  {
    if encounters == [] then [] else Flatten(encounters[..|encounters| - 1]) + encounters[|encounters| - 1]
  }

  /** The CSV header of the section. */
  const Captions: seq<string> := ["Date", "Code Type", "Code", "Code Text", "Modifier"]

  function Cells(c: Charge): seq<string>
  {
    [c.date, c.codeType, c.code, c.codeText, c.modifier]
  }

  /** A charge as a CSV line: date, code type, code, code text and modifier. */
  function ChargeLine(c: Charge): string
  {
    Csv.Row(Cells(c)) + "\n"
  }

  /** The lines of the charges, one per charge, in order. */
  function ChargeLines(cs: seq<Charge>): (lines: seq<string>)
    ensures |lines| == |cs|
    ensures forall i :: 0 <= i < |cs| ==> lines[i] == ChargeLine(cs[i])
  {
    seq(|cs|, i requires 0 <= i < |cs| => ChargeLine(cs[i]))
  }

  /** Every charge line reads back as the charge's five columns, under the five captions. */
  lemma ChargeLineReadsBack(c: Charge)
    ensures |Cells(c)| == |Captions|
    ensures Csv.ParseRow(ChargeLine(c)[..|ChargeLine(c)| - 1]) == Some(Cells(c))
  {
    var line := ChargeLine(c);
    assert line[..|line| - 1] == Csv.Row(Cells(c));
    Csv.RowRoundTrip(Cells(c));
  }

  lemma {:induction false} FeesAppend(a: seq<Charge>, b: seq<Charge>)
    ensures Fees(a + b) == Fees(a) + Fees(b)
    decreases |b|
  {
    if b == [] {
      assert a + b == a;
    } else {
      var ab := a + b;
      assert ab[..|ab| - 1] == a + b[..|b| - 1] && ab[|ab| - 1] == b[|b| - 1];
      FeesAppend(a, b[..|b| - 1]);
    }
  }

  lemma {:induction false} CopayFeesAppend(a: seq<Charge>, b: seq<Charge>)
    ensures CopayFees(a + b) == CopayFees(a) + CopayFees(b)
    decreases |b|
  {
    if b == [] {
      assert a + b == a;
    } else {
      var ab := a + b;
      assert ab[..|ab| - 1] == a + b[..|b| - 1] && ab[|ab| - 1] == b[|b| - 1];
      CopayFeesAppend(a, b[..|b| - 1]);
    }
  }

  lemma ChargeLinesAppend(a: seq<Charge>, b: seq<Charge>)
    ensures Concat(ChargeLines(a + b)) == Concat(ChargeLines(a)) + Concat(ChargeLines(b))
  {
    assert ChargeLines(a + b) == ChargeLines(a) + ChargeLines(b);
    ConcatAppend(ChargeLines(a), ChargeLines(b));
  }

  lemma Step(cs: seq<Charge>, i: nat)
    requires i < |cs|
    ensures Fees(cs[..i + 1]) == Fees(cs[..i]) + cs[i].fee
    ensures CopayFees(cs[..i + 1]) == CopayFees(cs[..i]) + (if IsCopay(cs[i]) then cs[i].fee else 0.0)
    ensures ChargeLines(cs[..i + 1]) == ChargeLines(cs[..i]) + [ChargeLine(cs[i])]
  {
    assert cs[..i + 1][..i] == cs[..i];
  }

  lemma FlattenStep(encounters: seq<seq<Charge>>, e: nat)
    requires e < |encounters|
    ensures Flatten(encounters[..e + 1]) == Flatten(encounters[..e]) + encounters[e]
  {
    assert encounters[..e + 1][..e] == encounters[..e];
  }

  /** The inner loop: one encounter's charges added to the running sums and, in a CSV export, written out. */
  method AddCharges(charges: seq<Charge>, csv: bool, total0: real, copays0: real, out0: string)
    returns (total: real, copays: real, out: string)
    ensures total == total0 + Fees(charges)
    ensures copays == copays0 + CopayFees(charges)
    ensures out == out0 + (if csv then Concat(ChargeLines(charges)) else "")
  {
    total, copays, out := total0, copays0, out0;
    var i := 0;
    while i < |charges|
      invariant 0 <= i <= |charges|
      invariant total == total0 + Fees(charges[..i])
      invariant copays == copays0 + CopayFees(charges[..i])
      invariant out == out0 + (if csv then Concat(ChargeLines(charges[..i])) else "")
    {
      var b := charges[i];
      Step(charges, i);
      if csv {
        var line := ChargeLine(b);
        ConcatExtend(out0, ChargeLines(charges[..i]), [line], out);
        ConcatOne(line);
        out := out + line;
      }
      total := total + b.fee;
      if b.codeType == "COPAY" {
        copays := copays + b.fee;
      }
      i := i + 1;
    }
    assert charges[..i] == charges;
  }

  /**
   * The outer loop over the picked encounters: the total of all fees, the
   * copays, and (in a CSV export) one line per charge in encounter order.
   */
  method BillingTotals(encounters: seq<seq<Charge>>, csv: bool) returns (total: real, copays: real, out: string)
    ensures total == Fees(Flatten(encounters))
    ensures copays == CopayFees(Flatten(encounters))
    ensures out == if csv then Concat(ChargeLines(Flatten(encounters))) else ""
  {
    total, copays, out := 0.0, 0.0, "";
    var e := 0;
    while e < |encounters|
      invariant 0 <= e <= |encounters|
      invariant total == Fees(Flatten(encounters[..e]))
      invariant copays == CopayFees(Flatten(encounters[..e]))
      invariant out == if csv then Concat(ChargeLines(Flatten(encounters[..e]))) else ""
    {
      ghost var before := Flatten(encounters[..e]);
      FlattenStep(encounters, e);
      FeesAppend(before, encounters[e]);
      CopayFeesAppend(before, encounters[e]);
      ChargeLinesAppend(before, encounters[e]);
      total, copays, out := AddCharges(encounters[e], csv, total, copays, out);
      e := e + 1;
    }
    assert encounters[..e] == encounters;
  }

  /** The three figures that close the section. */
  datatype Summary = Summary(subTotal: real, paid: real, total: real)

  function Abs(x: real): (r: real)
    ensures r >= 0.0 && (r == x || r == -x)
  {
    if x < 0.0 then -x else x
  }

  /** Sub-Total is the total plus the copays' size, Paid the copays' size, Total the total. */
  function BillingSummary(total: real, copays: real): (s: Summary)
    ensures s.paid >= 0.0 && s.subTotal - s.paid == s.total && s.total == total
    ensures s.paid == copays || s.paid == -copays
  {
    Summary(total + Abs(copays), Abs(copays), total)
  }

  /** The total splits into the copays and the other charges. */
  lemma {:induction false} FeesSplit(cs: seq<Charge>)
    ensures Fees(cs) == CopayFees(cs) + ChargeFees(cs)
    decreases |cs|
  {
    if cs != [] {
      FeesSplit(cs[..|cs| - 1]);
    }
  }

  /**
   * With copays booked as credits (a negative sum), Sub-Total is the sum of
   * the other charges and Paid is what the copays credited.
   */
  lemma CopaysAsCredits(cs: seq<Charge>)
    requires CopayFees(cs) <= 0.0
    ensures BillingSummary(Fees(cs), CopayFees(cs)).subTotal == ChargeFees(cs)
    ensures BillingSummary(Fees(cs), CopayFees(cs)).paid == -CopayFees(cs)
  {
    FeesSplit(cs);
  }
}
