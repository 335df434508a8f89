/**
 `beaconSyncMonitor` and `checkBeaconSync`: which nodes are suspected of lagging the beacon chain,
 and what the second look, after a sleep, decides.  Heights are unsigned 64-bit numbers.
 */
module BeaconSync {
  import opened Polling

  /** The first-stage test, short-circuited like the source's. */
  predicate Suspected(beaconBlock: uint64, number: uint64, threshold: uint64) {
    beaconBlock > number && Minus64(beaconBlock, number) >= threshold
  }

  /** The test in whole numbers: behind, and by at least the threshold. */
  lemma SuspectedMeansGap(beaconBlock: uint64, number: uint64, threshold: uint64)
    ensures Suspected(beaconBlock, number, threshold) <==>
      beaconBlock as int - number as int >= threshold as int && beaconBlock as int - number as int > 0
  {
  }

  /** Exactly the suspected nodes among those that answered, with the heights they reported. */
  ghost predicate Launches(beaconBlock: uint64, threshold: uint64, headers: map<Address, Option<uint64>>,
                           launched: map<Address, uint64>) {
    && (forall ip :: ip in launched <==>
          ip in headers && headers[ip].Some? && Suspected(beaconBlock, headers[ip].value, threshold))
    && (forall ip :: ip in launched ==> headers[ip] == Some(launched[ip]))
  }

  /** The loop over the headers, in any order; a missing header is a node that did not answer. */
  method BeaconSyncMonitor(beaconBlock: uint64, threshold: uint64, headers: map<Address, Option<uint64>>)
    returns (launched: map<Address, uint64>)
    ensures Launches(beaconBlock, threshold, headers, launched)
  {
    launched := map[];
    var todo := headers.Keys;
    while todo != {}
      invariant todo <= headers.Keys
      invariant forall ip :: ip in launched <==>
        ip in headers && ip !in todo && headers[ip].Some? && Suspected(beaconBlock, headers[ip].value, threshold)
      invariant forall ip :: ip in launched ==> headers[ip] == Some(launched[ip])
      decreases |todo|
    {
      var ip :| ip in todo;
      if headers[ip].Some? {
        var number := headers[ip].value;
        if beaconBlock > number && Minus64(beaconBlock, number) >= threshold {
          launched := launched[ip := number];
        }
      }
      todo := todo - {ip};
    }
  }

  /** What the second look did: whether it alerted, and the difference if it computed one. */
  datatype Decision = Decision(alert: bool, difference: Option<uint64>)

  /** `checkBeaconSync` after its sleep; `&&` computes the difference only if its left side holds. */
  function CheckBeaconSync(blockNum: uint64, beaconHeight: uint64, threshold: uint64, reply: Option<uint64>): Decision {
    match reply
    case None => Decision(false, None)
    case Some(number) =>
      if !(number > blockNum) then
        var d := Minus64(beaconHeight, number);
        Decision(d > threshold, Some(d))
      else Decision(false, None)
  }

  /**
   For every call that the first stage makes: the difference is computed only where it cannot wrap,
   and the alert is "no progress since the first reading", except when the node has not moved at
   all and its gap is exactly the threshold.
   */
  lemma SecondLookExact(blockNum: uint64, beaconHeight: uint64, threshold: uint64, reply: Option<uint64>)
    requires Suspected(beaconHeight, blockNum, threshold)
    ensures var d := CheckBeaconSync(blockNum, beaconHeight, threshold, reply);
      && (d.difference.Some? ==> reply.Some? && d.difference.value as int == beaconHeight as int - reply.value as int)
      && (d.alert <==>
            && reply.Some? && reply.value <= blockNum
            && !(reply.value == blockNum && beaconHeight as int - blockNum as int == threshold as int))
  {
  }

  /** Without the first stage the difference would wrap exactly when the node is ahead of the beacon height. */
  lemma WrapsExactlyAhead(blockNum: uint64, beaconHeight: uint64, threshold: uint64, reply: Option<uint64>)
    ensures var d := CheckBeaconSync(blockNum, beaconHeight, threshold, reply).difference;
      d.Some? && d.value as int != beaconHeight as int - reply.value as int
      <==> reply.Some? && beaconHeight < reply.value <= blockNum
  {
  }

  /** Both stages together, in whole numbers, for a node that answers twice. */
  lemma TwoStagesAlert(beaconBlock: uint64, threshold: uint64, first: uint64, second: uint64)
    ensures var alert := CheckBeaconSync(first, beaconBlock, threshold, Some(second)).alert;
      Suspected(beaconBlock, first, threshold) && alert <==>
      && second <= first < beaconBlock
      && beaconBlock as int - first as int >= threshold as int
      && beaconBlock as int - second as int > threshold as int
  {
  }
}
