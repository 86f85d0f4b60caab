/**
 * The one-line descriptions of the interactive objects, and their lookup.
 */
module SimpleDialogueContent {
  import opened Wrappers
  import DialogueContent

  // Each description is the source's single literal, written here as three joined
  // pieces around the word that names its object, so that the keyword lemmas below
  // can point at the word's offset without the verifier unfolding the whole string.
  const PhoneDescription := "My " + "phone" + " sits silent on the desk, its black screen reflecting nothing. I haven't touched it in hours - the constant buzzing and notifications felt overwhelming today."
  const LaptopDescription := "My " + "laptop" + " waits patiently, closed and silver. Behind that screen are emails I haven't answered, deadlines I'm avoiding, and a world that feels too demanding right now."
  const VrHeadsetDescription := "The " + "VR" + " headset offers escape to anywhere but here. Virtual worlds where I can be anyone, go anywhere - where anxiety doesn't follow me. But when I take it off, I'm still in this room."
  const AlarmClockDescription := "The alarm " + "clock" + "'s red digits stare back at me: 3:47. AM or PM? Time has lost meaning when every day blends into the next. I should set an alarm, but for what?"
  const DeskDescription := "My " + "desk" + " - command center of my isolated world. Scattered papers, empty coffee cups, unfinished projects. This is where I'm most productive and most trapped."
  const BedDescription := "My " + "bed" + " has become refuge and prison both. How many hours have I spent here, not sleeping, just existing? Hiding under covers from a world that feels too bright, too loud."
  const ChairDescription := "This " + "chair" + " has become my throne and my cage. I sit here for hours, paralyzed by choices, overwhelmed by options, frozen by the fear of making any decision at all."

  /** The static `descriptions` table. */
  const Descriptions: map<string, string> := map[
    "phone" := PhoneDescription,
    "laptop" := LaptopDescription,
    "vr_headset" := VrHeadsetDescription,
    "alarm_clock" := AlarmClockDescription,
    "desk" := DeskDescription,
    "bed" := BedDescription,
    "chair" := ChairDescription
  ]

  /** `getObjectDescription`: the description, or None (`null`) for an unknown id or an empty description. */
  function GetObjectDescription(objectId: string): (r: Option<string>)
    ensures r.Some? ==> objectId in Descriptions && r.value == Descriptions[objectId] && r.value != ""
    ensures r.None? ==> objectId !in Descriptions || Descriptions[objectId] == ""
  {
    if objectId in Descriptions && Descriptions[objectId] != "" then Some(Descriptions[objectId]) else None
  }

  /** `String.prototype.toLowerCase` on one character, for the ASCII letters the descriptions use. */
  function LowerChar(c: char): char {
    if 'A' <= c <= 'Z' then (c as int + 32) as char else c
  }

  /** The lower-cased `s` contains `word` starting at index `at`. */
  predicate MentionsAt(s: string, word: string, at: nat) {
    at + |word| <= |s| && forall j :: 0 <= j < |word| ==> LowerChar(s[at + j]) == word[j]
  }

  /** `s.toLowerCase()` contains `word`. */
  ghost predicate Mentions(s: string, word: string) {
    exists at: nat :: MentionsAt(s, word, at)
  }

  /** The word each description must mention, as the content's tests expect. */
  const Keywords: map<string, string> := map[

    "phone" := "phone",
    "laptop" := "laptop",
    "vr_headset" := "vr",
    "alarm_clock" := "clock",
    "desk" := "desk",
    "bed" := "bed",
    "chair" := "chair"
  ]

  /** Exactly the seven dialogue objects have descriptions, the same ids `getAllDialogue` maps. */
  lemma DescribedObjects()
    ensures Descriptions.Keys == DialogueContent.ObjectIds == DialogueContent.AllDialogue().Keys
    ensures |Descriptions| == 7
  {
    assert Descriptions.Keys == DialogueContent.ObjectIds;
    DialogueContent.SevenObjects();
  }

  /** Every id outside the table has no description. */
  lemma UnknownHasNoDescription(objectId: string)
    requires objectId !in DialogueContent.ObjectIds
    ensures GetObjectDescription(objectId) == None
  {
    DescribedObjects();
  }

  lemma PhoneMentioned()
    ensures MentionsAt(PhoneDescription, "phone", 3)
  {
  }

  lemma LaptopMentioned()
    ensures MentionsAt(LaptopDescription, "laptop", 3)
  {
  }

  lemma VrHeadsetMentioned()
    ensures MentionsAt(VrHeadsetDescription, "vr", 4)
  {
  }

  lemma AlarmClockMentioned()
    ensures MentionsAt(AlarmClockDescription, "clock", 10)
  {
  }

  lemma DeskMentioned()
    ensures MentionsAt(DeskDescription, "desk", 3)
  {
  }

  lemma BedMentioned()
    ensures MentionsAt(BedDescription, "bed", 3)
  {
  }

  lemma ChairMentioned()
    ensures MentionsAt(ChairDescription, "chair", 5)
  {
  }

  /** Every description is between 31 and 299 characters long and mentions its object, case-insensitively. */
  lemma {:induction false} DescriptionsMentionObjects(objectId: string)
    requires objectId in Descriptions
    ensures GetObjectDescription(objectId).Some?
    ensures 30 < |GetObjectDescription(objectId).value| < 300
    ensures objectId in Keywords && Mentions(GetObjectDescription(objectId).value, Keywords[objectId])
  {
    if objectId == "phone" {
      PhoneMentioned();
    } else if objectId == "laptop" {
      LaptopMentioned();
    } else if objectId == "vr_headset" {
      VrHeadsetMentioned();
    } else if objectId == "alarm_clock" {
      AlarmClockMentioned();
    } else if objectId == "desk" {
      DeskMentioned();
    } else if objectId == "bed" {
      BedMentioned();
    } else if objectId == "chair" {
      ChairMentioned();
    }
  }
}
