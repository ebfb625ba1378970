/**
 * The dialogue of the bot: the `Form` states, the order in which the chat
 * framework tries the handlers, and the handlers themselves, over per-user
 * sessions and the shared user store.
 */
module Conversation {
  import opened Wrappers
  import opened Dates
  import opened Ages
  import opened Names
  import opened Tokens
  import opened Users

  /** The steps of `Form`; `Idle` is the framework's "no state". */
  datatype FormState = Idle | AwaitingName | AwaitingBirthday

  /** `Form.next()`: from no state to the first step, and past the last step back to no state. */
  function Next(s: FormState): (n: FormState)
    ensures n != s
    ensures n == Idle <==> s == AwaitingBirthday
    ensures n == AwaitingName <==> s == Idle
  {
    match s
    case Idle => AwaitingName
    case AwaitingName => AwaitingBirthday
    case AwaitingBirthday => Idle
  }

  /** One user's conversation: its state and the data the handlers stored (`data['name']`, `data['birthdate']`). */
  datatype Session = Session(state: FormState, name: Option<string>, birthdate: Option<Date>)

  /** What the in-memory storage answers for a user it holds nothing for. */
  const Fresh: Session := Session(Idle, None, None)

  /** A stored name was accepted by the name rule, and the birthday step always has one. */
  ghost predicate SessionOk(s: Session) {
    && (s.name.Some? ==> ValidName(s.name.value))
    && (s.state == AwaitingBirthday ==> s.name.Some?)
  }

  /** The commands the transport recognises in a message; `None` is plain text. */
  datatype Command = Start | Help | Cancel | RemindBirthday | People | BirthdaysToday

  datatype Event = Event(command: Option<Command>, text: string)

  datatype Handler =
    | HelpHandler | CancelHandler | RemindHandler | NameHandler | BirthdayHandler
    | PeopleHandler | BirthdaysTodayHandler | Unhandled

  /**
   * The first handler, in registration order, whose filters accept the message:
   * help, cancel, remind, the name step, the birthday step, people, birthdays.
   * Handlers registered without a state only fire when there is no state;
   * `/cancel` fires in every state.
   */
  function Route(state: FormState, command: Option<Command>): (h: Handler)
    ensures h == CancelHandler <==> command == Some(Cancel)
    ensures h == NameHandler <==> state == AwaitingName && command != Some(Cancel)
    ensures h == BirthdayHandler <==> state == AwaitingBirthday && command != Some(Cancel)
    ensures h == HelpHandler <==> state == Idle && (command == Some(Start) || command == Some(Help))
    ensures h == RemindHandler <==> state == Idle && command == Some(RemindBirthday)
    ensures h == PeopleHandler <==> state == Idle && command == Some(People)
    ensures h == BirthdaysTodayHandler <==> state == Idle && command == Some(BirthdaysToday)
    ensures h == Unhandled <==> state == Idle && command.None?
  {
    match state
    case AwaitingName => if command == Some(Cancel) then CancelHandler else NameHandler
    case AwaitingBirthday => if command == Some(Cancel) then CancelHandler else BirthdayHandler
    case Idle =>
      match command
      case None => Unhandled
      case Some(Start) => HelpHandler
      case Some(Help) => HelpHandler
      case Some(Cancel) => CancelHandler
      case Some(RemindBirthday) => RemindHandler
      case Some(People) => PeopleHandler
      case Some(BirthdaysToday) => BirthdaysTodayHandler
  }

  /**
   * The date `/birthdays_today` asks about: the second space-separated token if
   * it parses as a date, and `today` otherwise.
   */
  function QueryDate(text: string, today: Date): (d: Date)
    ensures d == today || ValidDate(d)
  {
    var tokens := Split(text, ' ');
    if |tokens| > 1 && ParseDate(tokens[1]).Some? then ParseDate(tokens[1]).value else today
  }

  /** A date argument written as the bot itself prints dates is the date queried. */
  lemma QueryDateOfArgument(word: string, d: Date, today: Date)
    requires ' ' !in word && ValidDate(d)
    ensures QueryDate(word + " " + Format(d), today) == d
  {
    var f := Format(d);
    ParseFormat(d);
    assert ' ' !in f by {
      assert f == Pad2(d.day) + "." + Pad2(d.month) + "." + Pad4(d.year);
      assert forall i :: 0 <= i < |f| ==> IsDigit(f[i]) || f[i] == '.';
    }
    SplitJoin([word, f], ' ');
    assert Join([word, f], ' ') == word + " " + f;
  }

  /** Without a space there is no argument, and the query is about today. */
  lemma QueryDateWithoutArgument(text: string, today: Date)
    requires ' ' !in text
    ensures QueryDate(text, today) == today
  {
    SplitWhole(text, ' ');
  }

  /**
   * The second token is the argument: the date it names when it parses, and
   * today when it does not (`/birthdays_today tomorrow` asks about today).
   */
  lemma QueryDateOfToken(word: string, arg: string, today: Date)
    requires ' ' !in word && ' ' !in arg
    ensures QueryDate(word + " " + arg, today) == if ParseDate(arg).Some? then ParseDate(arg).value else today
  {
    SplitJoin([word, arg], ' ');
    assert Join([word, arg], ' ') == word + " " + arg;
  }

  /** Tokens after the second one are ignored. */
  lemma QueryDateOfTokens(word: string, arg: string, rest: string, today: Date)
    requires ' ' !in word && ' ' !in arg
    ensures QueryDate(word + " " + arg + " " + rest, today) == if ParseDate(arg).Some? then ParseDate(arg).value else today
  {
    SplitAtFirst(arg, rest, ' ');
    SplitAtFirst(word, arg + " " + rest, ' ');
    assert word + " " + arg + " " + rest == word + [' '] + (arg + [' '] + rest);
  }

  /** The answers of the bot, without their Russian wording. */
  datatype Reply =
    | NoReply | HelpText | Cancelled | AskName | NameRejected | AskBirthday(name: string)
    | BadDateFormat | FutureDate | Registered(message: AgeMessage) | Conflict(name: string)
    | PeopleList(rows: seq<User>) | Birthdays(date: Date, names: seq<string>) | NoBirthdays(date: Date)

  /** `cancel_handler` on one session: nothing without a state, otherwise back to a fresh session. */
  ghost predicate CancelStep(s: Session, s': Session, reply: Reply) {
    if s.state == Idle then reply == NoReply && s' == s else reply == Cancelled && s' == Fresh
  }

  /** `/remind_birthday` on one session: the name step, with the data kept. */
  ghost predicate RemindStep(s: Session, s': Session, reply: Reply) {
    reply == AskName && s' == s.(state := AwaitingName)
  }

  /** `process_name` on one session. */
  ghost predicate NameStep(s: Session, text: string, s': Session, reply: Reply) {
    if ValidName(text) then reply == AskBirthday(text) && s' == s.(state := AwaitingBirthday, name := Some(text))
    else reply == NameRejected && s' == s
  }

  /**
   * `process_birthday` on one session and the table (`records`, `nextId`):
   * every path, with the table unchanged on all but a successful registration.
   */
  ghost predicate BirthdayStep(s: Session, records: seq<User>, nextId: nat, stamp: int, text: string, today: Date,
                               s': Session, records': seq<User>, nextId': nat, reply: Reply)
    requires s.name.Some?
  {
    match ParseDate(text)
    case None =>
      reply == BadDateFormat && s' == s && records' == records && nextId' == nextId
    case Some(b) =>
      if Age(b, today) < 0 then
        reply == FutureDate && s' == s && records' == records && nextId' == nextId
      else if NameTaken(records, s.name.value) then
        && reply == Conflict(s.name.value) && s' == s.(birthdate := Some(b))
        && records' == records && nextId' == nextId
      else
        && reply == Registered(AgeMessageOf(Age(b, today))) && s' == Session(Idle, s.name, Some(b))
        && records' == records + [User(nextId, stamp, s.name.value, b)] && nextId' == nextId + 1
  }

  /** The answer to `/birthdays_today`: the names born on the queried month and day, or none for that date. */
  function BirthdaysReply(records: seq<User>, text: string, today: Date): (reply: Reply)
    ensures reply.Birthdays? || reply.NoBirthdays?
    ensures reply.Birthdays? ==> reply.date == QueryDate(text, today) && reply.names != []
    ensures reply.NoBirthdays? ==> reply.date == QueryDate(text, today)
    ensures forall n :: n in BirthdayNames(records, QueryDate(text, today).month, QueryDate(text, today).day) ==> reply.Birthdays? && n in reply.names
    ensures reply.Birthdays? ==> forall n :: n in reply.names ==>
              exists i :: 0 <= i < |records| && records[i].name == n && SameMonthDay(records[i].birthdate, reply.date.month, reply.date.day)
  {
    var q := QueryDate(text, today);
    var names := BirthdayNames(records, q.month, q.day);
    assert forall n :: n in names ==>
             exists i :: 0 <= i < |records| && records[i].name == n && SameMonthDay(records[i].birthdate, q.month, q.day) by {
      forall n | n in names
        ensures exists i :: 0 <= i < |records| && records[i].name == n && SameMonthDay(records[i].birthdate, q.month, q.day)
      {
        BirthdayNamesExact(records, q.month, q.day, n);
      }
    }
    if names == [] then NoBirthdays(q) else Birthdays(q, names)
  }

  class Bot {
    /**
     * The framework's in-memory storage of states and data. A key stands for
     * the storage's (chat, user) pair: one user has a separate dialogue in each chat.
     */
    var sessions: map<int, Session>
    const store: UserStore
    /** The clock reading taken once when the program starts, the default of `created_at`. */
    const importTime: int

    ghost predicate Valid()
      reads this, store
    {
      store.Valid() && forall k :: k in sessions ==> SessionOk(sessions[k])
    }

    function SessionOf(user: int): Session
      reads this
    {
      if user in sessions then sessions[user] else Fresh
    }

    constructor (importTime: int)
      ensures Valid() && fresh(store) && store.records == [] && store.nextId == 1 && sessions == map[]
      ensures this.importTime == importTime
    {
      store := new UserStore();
      sessions := map[];
      this.importTime := importTime;
    }

    /** `cancel_handler`: nothing and no answer without a state; otherwise `state.finish()` drops state and data. */
    method Cancel(user: int) returns (reply: Reply)
      requires Valid()
      modifies this
      ensures Valid()
      ensures forall k :: k != user ==> SessionOf(k) == old(SessionOf(k))
      ensures old(SessionOf(user)).state == Idle ==> reply == NoReply && sessions == old(sessions)
      ensures old(SessionOf(user)).state != Idle ==>
                reply == Cancelled && sessions == old(sessions) - {user} && SessionOf(user) == Fresh
    {
      if SessionOf(user).state == Idle {
        return NoReply;
      }
      sessions := sessions - {user};
      reply := Cancelled;
    }

    /** `/remind_birthday`: `Form.name.set()` moves to the name step and keeps the stored data. */
    method RemindBirthday(user: int) returns (reply: Reply)
      requires Valid() && SessionOf(user).state == Idle
      modifies this
      ensures Valid()
      ensures forall k :: k != user ==> SessionOf(k) == old(SessionOf(k))
      ensures reply == AskName
      ensures sessions == old(sessions)[user := old(SessionOf(user)).(state := AwaitingName)]
    {
      sessions := sessions[user := SessionOf(user).(state := AwaitingName)];
      reply := AskName;
    }

    /** `process_name`: a rejected name changes nothing; an accepted one is stored and the birthday step follows. */
    method ProcessName(user: int, text: string) returns (reply: Reply)
      requires Valid() && SessionOf(user).state == AwaitingName
      modifies this
      ensures Valid()
      ensures forall k :: k != user ==> SessionOf(k) == old(SessionOf(k))
      ensures !ValidName(text) ==> reply == NameRejected && sessions == old(sessions)
      ensures ValidName(text) ==>
                && reply == AskBirthday(text)
                && sessions == old(sessions)[user := old(SessionOf(user)).(state := AwaitingBirthday, name := Some(text))]
    {
      if !MatchName(text) {
        return NameRejected;
      }
      var s := SessionOf(user).(name := Some(text));
      sessions := sessions[user := s.(state := Next(s.state))];
      reply := AskBirthday(text);
    }

    /**
     * `process_birthday`: an unparseable or future date changes nothing; otherwise
     * the date is stored in the session and the user registered. A taken name keeps
     * the birthday step; a registration ends the dialogue and answers with the age.
     */
    method ProcessBirthday(user: int, text: string, today: Date) returns (reply: Reply)
      requires Valid() && SessionOf(user).state == AwaitingBirthday
      modifies this, store
      ensures Valid()
      ensures forall k :: k != user ==> SessionOf(k) == old(SessionOf(k))
      ensures ParseDate(text).None? ==>
                && reply == BadDateFormat && sessions == old(sessions)
                && store.records == old(store.records) && store.nextId == old(store.nextId)
      ensures ParseDate(text).Some? && Age(ParseDate(text).value, today) < 0 ==>
                && reply == FutureDate && sessions == old(sessions)
                && store.records == old(store.records) && store.nextId == old(store.nextId)
      ensures ParseDate(text).Some? && Age(ParseDate(text).value, today) >= 0 ==>
                var b, s := ParseDate(text).value, old(SessionOf(user));
                if NameTaken(old(store.records), s.name.value) then
                  && reply == Conflict(s.name.value)
                  && store.records == old(store.records) && store.nextId == old(store.nextId)
                  && sessions == old(sessions)[user := s.(birthdate := Some(b))]
                else
                  && reply == Registered(AgeMessageOf(Age(b, today)))
                  && store.records == old(store.records) + [User(old(store.nextId), importTime, s.name.value, b)]
                  && store.nextId == old(store.nextId) + 1
                  && sessions == old(sessions)[user := Session(Idle, s.name, Some(b))]
      ensures NoneAfter(old(store.records), today) ==> NoneAfter(store.records, today)
    {
      var parsed := ParseDate(text);
      if parsed.None? {
        return BadDateFormat;
      }
      var birthday := parsed.value;
      var age := Age(birthday, today);
      if age < 0 {
        return FutureDate;
      }
      AgeNegativeIffFuture(birthday, today);
      var s := SessionOf(user).(birthdate := Some(birthday));
      sessions := sessions[user := s];
      var name := s.name.value;
      var result := store.Register(name, birthday, importTime);
      if result.Success? {
        reply := Registered(AgeMessageOf(age));
        sessions := sessions[user := s.(state := Next(s.state))];
      } else {
        reply := Conflict(result.error);
      }
    }

    /** `/people`: every registered user, ordered by `created_at`. */
    method ShowPeople() returns (reply: Reply)
      requires Valid()
      ensures reply.PeopleList?
      ensures SortedByCreation(reply.rows) && multiset(reply.rows) == multiset(store.records)
    {
      var rows := store.Listing();
      reply := PeopleList(rows);
    }

    /** `process_birthdays_today`: the users born on the month and day of the queried date. */
    method ShowBirthdays(text: string, today: Date) returns (reply: Reply)
      requires Valid()
      ensures reply == BirthdaysReply(store.records, text, today)
    {
      var tokens := Split(text, ' ');
      var date := today;
      if |tokens| > 1 {
        var parsed := ParseDate(tokens[1]);
        if parsed.Some? {
          date := parsed.value;
        }
      }
      var names := store.BirthdayUsers(date);
      if |names| > 0 {
        reply := Birthdays(date, names);
      } else {
        reply := NoBirthdays(date);
      }
    }

    /**
     * One incoming message from `user`, handed to the handler `Route` picks.
     * Other users' sessions are untouched; only the birthday step writes to the
     * store, and then appends at most one row whose birthdate is not after today.
     */
    method Handle(user: int, event: Event, today: Date) returns (reply: Reply)
      requires Valid()
      modifies this, store
      ensures Valid()
      ensures forall k :: k != user ==> SessionOf(k) == old(SessionOf(k))
      ensures old(store.records) <= store.records && |store.records| <= |old(store.records)| + 1
      ensures Route(old(SessionOf(user)).state, event.command) != BirthdayHandler ==>
                store.records == old(store.records) && store.nextId == old(store.nextId)
      ensures NoneAfter(old(store.records), today) ==> NoneAfter(store.records, today)
      ensures Route(old(SessionOf(user)).state, event.command) == HelpHandler ==>
                reply == HelpText && sessions == old(sessions)
      ensures Route(old(SessionOf(user)).state, event.command) == CancelHandler ==>
                CancelStep(old(SessionOf(user)), SessionOf(user), reply)
      ensures Route(old(SessionOf(user)).state, event.command) == RemindHandler ==>
                RemindStep(old(SessionOf(user)), SessionOf(user), reply)
      ensures Route(old(SessionOf(user)).state, event.command) == NameHandler ==>
                NameStep(old(SessionOf(user)), event.text, SessionOf(user), reply)
      ensures Route(old(SessionOf(user)).state, event.command) == BirthdayHandler ==>
                && old(SessionOf(user)).name.Some?
                && BirthdayStep(old(SessionOf(user)), old(store.records), old(store.nextId), importTime, event.text, today,
                                SessionOf(user), store.records, store.nextId, reply)
      ensures Route(old(SessionOf(user)).state, event.command) == PeopleHandler ==>
                && reply.PeopleList? && sessions == old(sessions)
                && SortedByCreation(reply.rows) && multiset(reply.rows) == multiset(store.records)
      ensures Route(old(SessionOf(user)).state, event.command) == BirthdaysTodayHandler ==>
                reply == BirthdaysReply(store.records, event.text, today) && sessions == old(sessions)
      ensures Route(old(SessionOf(user)).state, event.command) == Unhandled ==>
                reply == NoReply && sessions == old(sessions)
    {
      match Route(SessionOf(user).state, event.command)
      case HelpHandler =>
        reply := HelpText;
      case CancelHandler =>
        reply := Cancel(user);
      case RemindHandler =>
        reply := RemindBirthday(user);
      case NameHandler =>
        reply := ProcessName(user, event.text);
      case BirthdayHandler =>
        reply := ProcessBirthday(user, event.text, today);
      case PeopleHandler =>
        reply := ShowPeople();
      case BirthdaysTodayHandler =>
        reply := ShowBirthdays(event.text, today);
      case Unhandled =>
        reply := NoReply;
    }
  }

  /** The inputs of the scenario below, as the rules read them. */
  lemma ScenarioInputs()
    ensures !ValidName("Anna123") && ValidName("Anna")
    ensures ParseDate("15.03.1990") == Some(Date(1990, 3, 15))
    ensures AgeMessageOf(Age(Date(1990, 3, 15), Date(2024, 6, 15))) == Remark(34, "года", Working)
  {
    assert "Anna123"[4] == '1';
    assert Num("15") == 15 by {
      assert "15"[..1] == "1" && "1"[..0] == "";
    }
    assert Num("03") == 3 by {
      assert "03"[..1] == "0" && "0"[..0] == "";
    }
    assert Num("1990") == 1990 by {
      assert "1990"[..3] == "199" && "199"[..2] == "19" && "19"[..1] == "1" && "1"[..0] == "";
      NumOfDigits("1990");
      NumOfDigits("199");
      NumOfDigits("19");
      NumOfDigits("1");
    }
    ParseDateOfFields("15", "03", "1990");
    assert "15" + "." + "03" + "." + "1990" == "15.03.1990";
  }

  /** The registration dialogue of one user on an empty store, on 15 June 2024. */
  method RegistrationScenario() {
    ScenarioInputs();
    var bot := new Bot(0);
    var today := Date(2024, 6, 15);
    var r := bot.RemindBirthday(1);
    assert r == AskName;
    r := bot.ProcessName(1, "Anna123");
    assert r == NameRejected && bot.SessionOf(1).state == AwaitingName;
    r := bot.ProcessName(1, "Anna");
    assert bot.SessionOf(1) == Session(AwaitingBirthday, Some("Anna"), None);
    r := bot.ProcessBirthday(1, "15.03.1990", today);
    assert bot.SessionOf(1).state == Idle;
    assert r == Registered(Remark(34, "года", Working));
    assert bot.store.records == [User(1, 0, "Anna", Date(1990, 3, 15))];
  }
}
