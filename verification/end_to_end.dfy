/** The two ends of the link together: the request the phone emits, read by the car. */
module EndToEnd {
  import opened Decimal
  import opened ArduinoString
  import opened RcControl
  import opened DriveCommands

  /** No character other than a digit or `-` appears in a decimal rendering. */
  lemma NotInDecimal(n: int, c: char)
    requires c != '-' && !IsDigit(c)
    ensures c !in IntToDecimal(n)
  {
    IntToDecimalDigits(n);
  }

  /** A character that starts no `name=` rules out every occurrence of it at those positions. */
  lemma FirstCharRulesOut(query: string, name: string, k: nat)
    requires |name| > 0 && k <= |query|
    requires name[0] !in query[..k]
    ensures forall i :: 0 <= i < k ==> !OccursAt(query, name + "=", i)
  {
    forall i | 0 <= i < k
      ensures !OccursAt(query, name + "=", i)
    {
      assert query[i] == query[..k][i];
      assert (name + "=")[0] == name[0];
    }
  }

  /** A parameter written first is read back. */
  lemma ParamAtStart(name: string, n: int, rest: string)
    requires rest == [] || !IsDigit(rest[0])
    ensures GetParamValue(name + "=" + IntToDecimal(n) + rest, name) == Param(true, n)
  {
    var query := name + "=" + IntToDecimal(n) + rest;
    assert query == "" + name + "=" + IntToDecimal(n) + rest;
    KeyOccursAfterPrefix(query, "", name, IntToDecimal(n) + rest);
    DecimalAfterKey(query, "", name, n, rest);
    ParamReadsDecimal(query, name, 0, n);
  }

  lemma PrefixOfQuery(query: string, prefix: string, tail: string)
    requires query == prefix + tail
    ensures query[..|prefix|] == prefix
  {
  }

  /** A parameter written after text that does not hold its first letter is read back. */
  lemma ParamAfterOthers(prefix: string, name: string, n: int, rest: string)
    requires |name| > 0 && name[0] !in prefix
    requires rest == [] || !IsDigit(rest[0])
    ensures GetParamValue(prefix + name + "=" + IntToDecimal(n) + rest, name) == Param(true, n)
  {
    var query := prefix + name + "=" + IntToDecimal(n) + rest;
    PrefixOfQuery(query, prefix, name + "=" + IntToDecimal(n) + rest);
    FirstCharRulesOut(query, name, |prefix|);
    KeyOccursAfterPrefix(query, prefix, name, IntToDecimal(n) + rest);
    DecimalAfterKey(query, prefix, name, n, rest);
    ParamReadsDecimal(query, name, |prefix|, n);
  }

  /** The drive query seen from its first parameter. */
  lemma QueryShapeUd(a: string, b: string, suffix: string)
    ensures "ud=" + a + "&lr=" + b + suffix == "ud" + "=" + a + ("&lr=" + b + suffix)
  {
  }

  /** The drive query seen from its second parameter. */
  lemma QueryShapeLr(a: string, b: string, suffix: string)
    ensures "ud=" + a + "&lr=" + b + suffix == ("ud=" + a + "&") + "lr" + "=" + b + suffix
  {
  }

  /** The car reads back the throttle of a phone drive query. */
  lemma DriveQueryReadsUd(ud: int, lr: int, suffix: string)
    requires suffix == [] || !IsDigit(suffix[0])
    ensures GetParamValue(DriveQuery(ud, lr) + suffix, "ud") == Param(true, ud)
  {
    QueryShapeUd(IntToDecimal(ud), IntToDecimal(lr), suffix);
    ParamAtStart("ud", ud, "&lr=" + IntToDecimal(lr) + suffix);
  }

  /** The car reads back the steering of a phone drive query: no `lr=` can start
      before the one the phone wrote, since no earlier character is an `l`. */
  lemma DriveQueryReadsLr(ud: int, lr: int, suffix: string)
    requires suffix == [] || !IsDigit(suffix[0])
    ensures GetParamValue(DriveQuery(ud, lr) + suffix, "lr") == Param(true, lr)
  {
    NoLetterInPrefix(ud);
    QueryShapeLr(IntToDecimal(ud), IntToDecimal(lr), suffix);
    ParamAfterOthers("ud=" + IntToDecimal(ud) + "&", "lr", lr, suffix);
  }

  /** The text before `lr=` in a drive query holds no `l`. */
  lemma NoLetterInPrefix(ud: int)
    ensures 'l' !in "ud=" + IntToDecimal(ud) + "&"
  {
    NotInDecimal(ud, 'l');
  }

  /** Round trip: a request path the phone builds for in-range values sets the car's latest
      throttle and turn commands to exactly those values, whatever the car held before and
      whether or not the request line's " HTTP/1.1" tail is still attached. */
  lemma DrivePathRoundTrip(cmds: Commands, ud: int, lr: int, suffix: string)
    requires -255 <= ud <= 255 && -255 <= lr <= 255
    requires suffix == [] || !IsDigit(suffix[0])
    ensures HandleRequest(cmds, DrivePath(ud, lr) + suffix) == Commands(ud, lr)
  {
    var query := DriveQuery(ud, lr) + suffix;
    assert DrivePath(ud, lr) + suffix == "/drive?" + query;
    DriveQueryReadsUd(ud, lr, suffix);
    DriveQueryReadsLr(ud, lr, suffix);
    HandleDriveRequest(cmds, query, ud, lr);
  }

  /** The phone and the car agree: after any session of the hook starting from rest, once
      something has been sent, the car that handles the last request holds exactly the pair
      the phone remembers as last sent. */
  lemma SessionAgreesWithCar(calls: seq<(Op, FetchOutcome)>, cmds: Commands, suffix: string)
    requires suffix == [] || !IsDigit(suffix[0])
    requires |Run(InitialDispatcher, calls).requests| > 0
    ensures var e := Run(InitialDispatcher, calls);
            var last := e.requests[|e.requests| - 1];
            HandleRequest(cmds, DrivePath(last.ud, last.lr) + suffix)
              == Commands(e.next.lastSentUd, e.next.lastSentLr)
  {
    RunStateIsLastRequest(InitialDispatcher, calls);
    RunKeepsRange(InitialDispatcher, calls);
    var e := Run(InitialDispatcher, calls);
    DrivePathRoundTrip(cmds, e.next.lastSentUd, e.next.lastSentLr, suffix);
  }

  lemma Decimal120()
    ensures IntToDecimal(120) == "120"
  {
    assert NatToDecimal(1) == "1";
    assert NatToDecimal(12) == "12";
  }

  lemma DecimalMinus40()
    ensures IntToDecimal(-40) == "-40"
  {
    assert NatToDecimal(4) == "4";
  }

  lemma Decimal255()
    ensures IntToDecimal(255) == "255"
  {
    assert NatToDecimal(2) == "2";
    assert NatToDecimal(25) == "25";
  }

  /** Harness case: the first of two parameters. */
  lemma GetParamHarnessFirst()
    ensures GetParamValue("ud=120&lr=-40", "ud") == Param(true, 120)
  {
    Decimal120();
    DecimalMinus40();
    assert DriveQuery(120, -40) + "" == "ud=120&lr=-40";
    DriveQueryReadsUd(120, -40, "");
  }

  /** Harness case: the last of two parameters, negative. */
  lemma GetParamHarnessLast()
    ensures GetParamValue("ud=120&lr=-40", "lr") == Param(true, -40)
  {
    Decimal120();
    DecimalMinus40();
    assert DriveQuery(120, -40) + "" == "ud=120&lr=-40";
    DriveQueryReadsLr(120, -40, "");
  }

  /** Harness case: a single parameter. */
  lemma GetParamHarnessSingle()
    ensures GetParamValue("ud=255", "ud") == Param(true, 255)
  {
    Decimal255();
    assert "ud=255" == "ud" + "=" + IntToDecimal(255) + "";
    ParamAtStart("ud", 255, "");
  }

  /** Harness case: a parameter that is not there. */
  lemma GetParamHarnessMissing()
    ensures GetParamValue("ud=120&lr=-40", "speed") == Param(false, 0)
  {
    var q := "ud=120&lr=-40";
    assert 's' !in q;
    FirstCharRulesOut(q, "speed", |q|);
  }
}
