/**
 * The contest state of SpeechContestManagementSystem: SpeechManager's
 * containers, their reset by initSpeech, and the twelve speakers that
 * createSpeaker enrolls under the ids 10001 to 10012.
 */
module SpeechManager {
  /** The letters that name the speakers, one per speaker. */
  const NAME_SEED: string := "ABCDEFGHIJKL"
  const FIRST_ID: int := 10001

  /** A speaker: a name and the scores of the two rounds. */
  datatype Speaker = Speaker(name: string, scores: seq<real>)

  /** The speaker createSpeaker builds in its i-th iteration. */
  function NewSpeaker(i: int): Speaker
    requires 0 <= i < |NAME_SEED|
  {
    Speaker("Student " + [NAME_SEED[i]], [0.0, 0.0])
  }

  /**
   * Speaker i is named "Student " followed by seed letter i, and both of
   * its scores are 0.
   */
  lemma NewSpeakerFields(i: int)
    requires 0 <= i < |NAME_SEED|
    ensures |NewSpeaker(i).name| == 9 && NewSpeaker(i).name[..8] == "Student "
    ensures NewSpeaker(i).name[8] == NAME_SEED[i]
    ensures NewSpeaker(i).scores == [0.0, 0.0]
  {
  }

  /** The ids of the first n speakers, in enrolment order. */
  function Ids(n: nat): (r: seq<int>)
    ensures |r| == n
    ensures forall k :: 0 <= k < n ==> r[k] == FIRST_ID + k
  {
    seq(n, k requires 0 <= k < n => FIRST_ID + k)
  }

  /**
   * `m_Speaker` after the first n insertions into `speakers`: map::insert
   * adds an id that is absent and keeps the entry of an id already present.
   */
  function Enrolled(speakers: map<int, Speaker>, n: nat): map<int, Speaker>
    requires n <= |NAME_SEED|
  {
    if n == 0 then speakers
    else
      var r := Enrolled(speakers, n - 1);
      var id := FIRST_ID + n - 1;
      if id in r then r else r[id := NewSpeaker(n - 1)]
  }

  /** Enrolment adds exactly the first n ids to the keys. */
  lemma {:induction false} EnrolledKeys(speakers: map<int, Speaker>, n: nat)
    requires n <= |NAME_SEED|
    ensures forall id :: id in Enrolled(speakers, n) <==> id in speakers || FIRST_ID <= id < FIRST_ID + n
  {
    if n > 0 {
      EnrolledKeys(speakers, n - 1);
    }
  }

  /** Enrolment keeps every entry already present. */
  lemma {:induction false} EnrolledKeeps(speakers: map<int, Speaker>, n: nat, id: int)
    requires n <= |NAME_SEED| && id in speakers
    ensures id in Enrolled(speakers, n) && Enrolled(speakers, n)[id] == speakers[id]
  {
    if n > 0 {
      EnrolledKeeps(speakers, n - 1, id);
    }
  }

  /** Enrolment gives each new id the speaker of its position. */
  lemma {:induction false} EnrolledNew(speakers: map<int, Speaker>, n: nat, id: int)
    requires n <= |NAME_SEED| && FIRST_ID <= id < FIRST_ID + n && id !in speakers
    ensures id in Enrolled(speakers, n) && Enrolled(speakers, n)[id] == NewSpeaker(id - FIRST_ID)
  {
    if id < FIRST_ID + n - 1 {
      EnrolledNew(speakers, n - 1, id);
    } else {
      EnrolledKeys(speakers, n - 1);
    }
  }

  /** Enrolling into a map that holds none of the first n ids adds n keys. */
  lemma {:induction false} EnrolledSize(speakers: map<int, Speaker>, n: nat)
    requires n <= |NAME_SEED|
    requires forall id :: id in speakers ==> !(FIRST_ID <= id < FIRST_ID + n)
    ensures |Enrolled(speakers, n)| == |speakers| + n
  {
    if n > 0 {
      var prev := Enrolled(speakers, n - 1);
      var id := FIRST_ID + n - 1;
      EnrolledSize(speakers, n - 1);
      EnrolledKeys(speakers, n - 1);
      assert id !in prev;
    }
  }

  /** In such a map, every one of the first n ids gets the speaker of its position. */
  lemma EnrolledAllNew(speakers: map<int, Speaker>, n: nat)
    requires n <= |NAME_SEED|
    requires forall id :: id in speakers ==> !(FIRST_ID <= id < FIRST_ID + n)
    ensures forall id :: FIRST_ID <= id < FIRST_ID + n ==>
      id in Enrolled(speakers, n) && Enrolled(speakers, n)[id] == NewSpeaker(id - FIRST_ID)
  {
    forall id | FIRST_ID <= id < FIRST_ID + n
      ensures id in Enrolled(speakers, n) && Enrolled(speakers, n)[id] == NewSpeaker(id - FIRST_ID)
    {
      EnrolledNew(speakers, n, id);
    }
  }

  /** Distinct speakers get distinct names. */
  lemma SpeakerNamesDistinct(i: int, j: int)
    requires 0 <= i < |NAME_SEED| && 0 <= j < |NAME_SEED| && i != j
    ensures NewSpeaker(i).name != NewSpeaker(j).name
  {
    assert NewSpeaker(i).name[8] == NAME_SEED[i];
    assert NewSpeaker(j).name[8] == NAME_SEED[j];
  }

  class SpeechManager {
    var students: seq<int>
    var firstRoundWinners: seq<int>
    var victory: seq<int>
    var speakers: map<int, Speaker>
    var index: int
    var fileIsEmpty: bool
    var record: map<int, seq<string>>

    /**
     * initSpeech: empties the three id lists and the speaker map and starts
     * at round 1; the history fields are left as they are.
     */
    method InitSpeech()
      modifies this
      ensures students == [] && firstRoundWinners == [] && victory == []
      ensures speakers == map[] && index == 1
      ensures fileIsEmpty == old(fileIsEmpty) && record == old(record)
    {
      students := [];
      firstRoundWinners := [];
      victory := [];
      speakers := map[];
      index := 1;
    }

    /**
     * createSpeaker: appends the ids 10001.. to the student list, one per
     * seed letter, and inserts each with a fresh speaker into the map.
     */
    method CreateSpeaker()
      modifies this
      ensures students == old(students) + Ids(|NAME_SEED|)
      ensures speakers == Enrolled(old(speakers), |NAME_SEED|)
      ensures firstRoundWinners == old(firstRoundWinners) && victory == old(victory)
      ensures index == old(index) && fileIsEmpty == old(fileIsEmpty) && record == old(record)
    {
      var nameSeed := NAME_SEED;
      var ids := students;
      var enrolled := speakers;
      for i := 0 to |nameSeed|
        invariant ids == old(students) + Ids(i)
        invariant enrolled == Enrolled(old(speakers), i)
      {
        var name := "Student " + [nameSeed[i]];
        var sp := Speaker(name, [0.0, 0.0]);
        ids := ids + [i + FIRST_ID];
        assert Ids(i + 1) == Ids(i) + [i + FIRST_ID];
        if i + FIRST_ID !in enrolled {
          enrolled := enrolled[i + FIRST_ID := sp];
        }
      }
      students := ids;
      speakers := enrolled;
    }

    /**
     * The constructor: a reset followed by enrolment, so twelve students
     * in id order, twelve speaker keys, all scores 0 and round 1. The
     * history map starts empty; `fileIsEmpty` is never initialised.
     */
    constructor()
      ensures students == Ids(|NAME_SEED|) && |students| == 12
      ensures |speakers| == 12
      ensures forall id :: id in speakers <==> FIRST_ID <= id < FIRST_ID + 12
      ensures forall id :: id in speakers ==> speakers[id] == NewSpeaker(id - FIRST_ID)
      ensures firstRoundWinners == [] && victory == [] && index == 1
      ensures record == map[]
    {
      record := map[];
      new;
      InitSpeech();
      var before := speakers;
      var n := |NAME_SEED|;
      CreateSpeaker();
      EnrolledKeys(before, n);
      EnrolledSize(before, n);
      EnrolledAllNew(before, n);
    }
  }
}
