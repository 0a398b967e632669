/**
 * Reading the medal thresholds of a stage: each child of the stage's MEDALS
 * node carries an `Id` and a `MEDAL_THRESHOLD`; complete entries are stored
 * under their id (a later entry with the same id wins), thresholds above 1000
 * are taken to be milliseconds and divided by 1000, and incomplete entries are
 * skipped.
 */
module GhostsMedals {
  import opened Optional

  /** One child of the MEDALS node: its two attributes, each possibly missing. */
  datatype MedalNode = MedalNode(id: Option<string>, threshold: Option<real>)

  predicate Complete(n: MedalNode) {
    n.id.Some? && n.threshold.Some?
  }

  /** A threshold above 1000 is read as milliseconds and turned into seconds. */
  function Normalize(threshold: real): (r: real)
    ensures threshold > 1000.0 ==> r * 1000.0 == threshold
    ensures threshold <= 1000.0 ==> r == threshold
  {
    if threshold > 1000.0 then threshold / 1000.0 else threshold
  }

  /** The table the loop has built after visiting `children` in order. */
  function MedalTable(children: seq<MedalNode>): map<string, real>
    decreases |children|
  {
    if children == [] then map[]
    else
      var last := children[|children| - 1];
      var prior := MedalTable(children[..|children| - 1]);
      if Complete(last) then prior[last.id.value := Normalize(last.threshold.value)] else prior
  }

  /**
   * `parseMedals`, given the MEDALS node if the stage has one. With no such
   * node the result is empty.
   */
  method ParseMedals(medals: Option<seq<MedalNode>>) returns (ret: map<string, real>)
    ensures medals.None? ==> ret == map[]
    ensures medals.Some? ==> ret == MedalTable(medals.value)
  {
    ret := map[];
    if medals.Some? {
      var children := medals.value;
      var i := 0;
      while i < |children|
        invariant 0 <= i <= |children|
        invariant ret == MedalTable(children[..i])
      {
        var id, val := children[i].id, children[i].threshold;
        if id.Some? && val.Some? {
          var v := val.value;
          if v > 1000.0 {
            v := v / 1000.0;
          }
          ret := ret[id.value := v];
        }
        assert children[..i + 1][..i] == children[..i];
        i := i + 1;
      }
      assert children[..i] == children;
    }
  }

  /** An id has a threshold exactly when some complete entry carries it. */
  lemma {:induction false} MedalTableKeys(children: seq<MedalNode>, id: string)
    ensures id in MedalTable(children)
        <==> exists i | 0 <= i < |children| :: Complete(children[i]) && children[i].id.value == id
    decreases |children|
  {
    if children != [] {
      var n := |children| - 1;
      var init := children[..n];
      MedalTableKeys(init, id);
      if id in MedalTable(init) {
        var i :| 0 <= i < |init| && Complete(init[i]) && init[i].id.value == id;
        assert children[i] == init[i];
      }
      if exists i | 0 <= i < |children| :: Complete(children[i]) && children[i].id.value == id {
        var i :| 0 <= i < |children| && Complete(children[i]) && children[i].id.value == id;
        if i < n {
          assert init[i] == children[i];
        }
      }
    }
  }

  /**
   * The threshold stored for an id is the normalised threshold of the last
   * complete entry carrying that id.
   */
  lemma {:induction false} MedalTableLastWins(children: seq<MedalNode>, i: nat)
    requires i < |children| && Complete(children[i])
    requires forall j | i < j < |children| :: !(Complete(children[j]) && children[j].id == children[i].id)
    ensures children[i].id.value in MedalTable(children)
    ensures MedalTable(children)[children[i].id.value] == Normalize(children[i].threshold.value)
    decreases |children|
  {
    var n := |children| - 1;
    if i < n {
      var init := children[..n];
      assert forall j | i < j < |init| :: init[j] == children[j];
      MedalTableLastWins(init, i);
    }
  }
}
