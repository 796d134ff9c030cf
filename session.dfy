/** The app's session state: the goals, logs and future-you chat history it
    treats as its database, loaded from disk once per browser session, and the
    form and button handlers that change them. Each change is followed by a
    save to disk, which is not modelled here. */
module Session {
  import opened Records
  import opened Text

  class SessionState {
    var goals: seq<Goal>
    var logs: seq<Log>
    var chat: seq<Message>
    var initializedFromDisk: bool

    /** A new browser session, before anything is loaded. */
    constructor ()
      ensures goals == [] && logs == [] && chat == [] && !initializedFromDisk
    {
      goals, logs, chat := [], [], [];
      initializedFromDisk := false;
    }

    /** `init_state_from_disk`: the first call installs what was read from the
        three files (an empty list for a missing or unreadable file) and sets
        the flag; every later call changes nothing. */
    method InitFromDisk(storedGoals: seq<Goal>, storedLogs: seq<Log>, storedChat: seq<Message>)
      modifies this
      ensures initializedFromDisk
      ensures old(initializedFromDisk) ==>
                goals == old(goals) && logs == old(logs) && chat == old(chat)
      ensures !old(initializedFromDisk) ==>
                goals == storedGoals && logs == storedLogs && chat == storedChat
    {
      if initializedFromDisk {
        return;
      }
      goals := storedGoals;
      logs := storedLogs;
      chat := storedChat;
      initializedFromDisk := true;
    }

    /** The "Add Goal" form: a name that is blank after stripping is refused
        and nothing changes; otherwise exactly one goal, with the stripped name
        and description, is appended after the existing ones. */
    method AddGoal(name: string, category: string, description: string) returns (added: bool)
      requires category in CategoryOptions
      modifies this
      ensures added <==> !IsBlank(name)
      ensures added ==> goals == old(goals) + [Goal(Strip(name), category, Strip(description))]
      ensures !added ==> goals == old(goals)
      ensures logs == old(logs) && chat == old(chat) && initializedFromDisk == old(initializedFromDisk)
    {
      if IsBlank(name) {
        return false;
      }
      goals := goals + [Goal(Strip(name), category, Strip(description))];
      return true;
    }

    /** The "Delete" button of the goal at position `i`: exactly that goal is
        removed, the others keep their order; the logs of the goal stay. */
    method DeleteGoal(i: nat)
      requires i < |goals|
      modifies this
      ensures goals == old(goals)[..i] + old(goals)[i + 1..]
      ensures logs == old(logs) && chat == old(chat) && initializedFromDisk == old(initializedFromDisk)
    {
      goals := goals[..i] + goals[i + 1..];
    }

    /** The "Save Log" form: one entry, for a goal chosen among the goal names,
        with the stripped note, is appended after the existing ones. */
    method SaveLog(goal: string, date: Day, note: string)
      requires goal in GoalNames(goals)
      modifies this
      ensures logs == old(logs) + [Log(goal, date, Strip(note))]
      ensures goals == old(goals) && chat == old(chat) && initializedFromDisk == old(initializedFromDisk)
    {
      logs := logs + [Log(goal, date, Strip(note))];
    }

    /** The "Clear conversation" button. */
    method ClearChat()
      modifies this
      ensures chat == []
      ensures goals == old(goals) && logs == old(logs) && initializedFromDisk == old(initializedFromDisk)
    {
      chat := [];
    }

    /** The "Talk to Future Me" button. A blank question appends nothing.
        Otherwise the question, as typed, is appended as a user message, and
        the model's answer as an assistant message when the call succeeded
        (`reply` is `None` when it raised). */
    method Ask(question: string, reply: Option<string>) returns (asked: bool)
      modifies this
      ensures asked <==> !IsBlank(question)
      ensures !asked ==> chat == old(chat)
      ensures asked && reply.None? ==> chat == old(chat) + [Message(User, question)]
      ensures asked && reply.Some? ==>
                chat == old(chat) + [Message(User, question), Message(Assistant, reply.value)]
      ensures goals == old(goals) && logs == old(logs) && initializedFromDisk == old(initializedFromDisk)
    {
      if IsBlank(question) {
        return false;
      }
      chat := chat + [Message(User, question)];
      if reply.Some? {
        chat := chat + [Message(Assistant, reply.value)];
      }
      return true;
    }
  }

  /** A browser session: the load at the top of the script runs on every
      rerun, and only the first one reads the files; the handlers then see what
      was loaded, whatever the files hold by the time of a rerun. */
  method ReloadIsIdempotent(firstGoals: seq<Goal>, firstLogs: seq<Log>, firstChat: seq<Message>,
                            laterGoals: seq<Goal>, laterLogs: seq<Log>, laterChat: seq<Message>)
    returns (s: SessionState)
    ensures s.goals == firstGoals && s.logs == firstLogs && s.chat == firstChat
  {
    s := new SessionState();
    s.InitFromDisk(firstGoals, firstLogs, firstChat);
    s.InitFromDisk(laterGoals, laterLogs, laterChat);
  }
}
