/** The page script's shared state (app.py lines 8-19 and the two sections
    that change it): the global `data` document, whose two lists the
    Daily Challenge and Journal sections append to in place, and the
    `data.json` file that every change is saved to in full. */
module Hub {
  import opened Store
  import opened Text
  import opened DailyChallenge
  import opened Journal

  /** What the Journal section reports after a run. */
  datatype JournalStatus = NotPressed | EntrySaved | EmptyEntryRefused

  class GrowthHub {
    /** `data["challenges"]` */
    var challenges: seq<ChallengeResponse>
    /** `data["journal"]` */
    var journal: seq<string>
    /** The backing file `data.json`: None while it does not exist. */
    var file: Option<Document>

    /** The in-memory document. */
    function Data(): Document
      reads this
    {
      Document(challenges, journal)
    }

    /** `data = load_data()` at the start of the script. */
    constructor (stored: Option<Document>)
      ensures file == stored
      ensures Data() == LoadData(stored)
    {
      var d := LoadData(stored);
      challenges, journal := d.challenges, d.journal;
      file := stored;
    }

    /** A later run of the script reloads `data` from the file. */
    method Reload()
      modifies this
      ensures file == old(file)
      ensures Data() == LoadData(file)
    {
      var d := LoadData(file);
      challenges, journal := d.challenges, d.journal;
    }

    /** `save_data(data)`: the file is overwritten with the whole document. */
    method Save()
      modifies this`file
      ensures file == SaveData(Data())
      ensures LoadData(file) == Data()
    {
      file := SaveData(Data());
    }

    /** One run of the Daily Challenge section: a prompt is drawn and shown;
        on "Submit Response" the pair is appended to `challenges` and the
        document is saved. */
    method DailyChallengePage(draw: nat, response: string, pressed: bool) returns (prompt: string)
      requires draw < |Prompts|
      modifies this
      ensures prompt == PickPrompt(draw) && prompt in Prompts
      ensures pressed ==> Data() == AddResponse(old(Data()), prompt, response)
      ensures pressed ==> challenges == old(challenges) + [ChallengeResponse(prompt, response)]
      ensures pressed ==> file == SaveData(Data())
      ensures journal == old(journal)
      ensures !pressed ==> challenges == old(challenges) && file == old(file)
    {
      prompt := PickPrompt(draw);
      if pressed {
        challenges := challenges + [ChallengeResponse(prompt, response)];
        Save();
      }
    }

    /** One run of the Journal section: on "Save Journal Entry" a blank entry
        is refused and anything else is appended verbatim and saved; then the
        journal, including a just-saved entry, is listed newest first. */
    method JournalPage(entry: string, pressed: bool) returns (status: JournalStatus, listing: seq<Listed>)
      modifies this
      ensures status == (if !pressed then NotPressed else if IsBlank(entry) then EmptyEntryRefused else EntrySaved)
      ensures status == EntrySaved ==> Submit(old(Data()), entry) == Saved(Data())
      ensures status == EntrySaved ==> journal == old(journal) + [entry] && file == SaveData(Data())
      ensures status != EntrySaved ==> journal == old(journal) && file == old(file)
      ensures challenges == old(challenges)
      ensures NewestFirst(listing, journal)
    {
      status := NotPressed;
      if pressed {
        StripEmptyIffBlank(entry);
        if Strip(entry) != [] {
          journal := journal + [entry];
          Save();
          status := EntrySaved;
        } else {
          status := EmptyEntryRefused;
        }
      }
      listing := ListEntries(journal);
    }
  }

  /** Entries saved in one run are there after the script runs again, and
      challenge responses submitted in between do not disturb them. */
  method SavedEntrySurvivesRerun(stored: Option<Document>, entry: string, draw: nat, response: string)
    returns (journalAfter: seq<string>)
    requires !IsBlank(entry)
    requires draw < |Prompts|
    ensures journalAfter == LoadData(stored).journal + [entry]
  {
    var hub := new GrowthHub(stored);
    var status, listing := hub.JournalPage(entry, true);
    hub.Reload();
    var prompt := hub.DailyChallengePage(draw, response, true);
    hub.Reload();
    journalAfter := hub.journal;
  }
}
