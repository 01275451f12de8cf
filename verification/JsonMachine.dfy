/** The explicit-stack JSON serializer and its refinement of the recursive printer. */
module JsonMachine {
  import opened Text
  import opened Writer
  import opened Decimal
  import opened Escape
  import opened Json

  datatype Task = Literal(text: Str) | StringTask(s: Str) | ValueTask(v: Value)

  function TaskText(task: Task): Str {
    match task
    case Literal(text) => text
    case StringTask(s) => Quoted(s, Mode.Json)
    case ValueTask(v) => Print(v, Mode.Json)
  }

  /** The text a stack of tasks still has to produce, top of the stack first. */
  function Remaining(pending: seq<Task>): Str {
    if pending == [] then []
    else TaskText(pending[|pending| - 1]) + Remaining(pending[..|pending| - 1])
  }

  /** A non-empty text that starts and ends with ASCII. */
  ghost predicate Fenced(s: Str) {
    s != [] && s[0] < 0x80 && s[|s| - 1] < 0x80
  }

  ghost predicate FencedTasks(pending: seq<Task>) {
    forall i :: 0 <= i < |pending| ==> Fenced(TaskText(pending[i]))
  }

  lemma PushTask(pending: seq<Task>, task: Task)
    ensures Remaining(pending + [task]) == TaskText(task) + Remaining(pending)
  {
    assert (pending + [task])[..|pending|] == pending;
  }

  lemma ValueFenced(v: Value)
    ensures Fenced(TaskText(ValueTask(v)))
  {
    hide Print;
    ValueStart(v, Mode.Json);
  }

  lemma StringFenced(s: Str)
    ensures Fenced(TaskText(StringTask(s)))
  {
    hide Escaped;
  }

  /** A string literal counts as one piece of output. */
  method WriteJsonString(writer: BoundedWriter, value: Str, mode: Mode) returns (ok: bool)
    requires writer.Valid()
    modifies writer
    ensures writer.Valid() && writer.offered == old(writer.offered) + [Quoted(value, mode)]
    ensures ok == !writer.overflow
  {
    hide Escaped, Replacement, Encode, EncodeAll, Join;
    ghost var before, pieces := writer.offered, [];
    QuotedPieces(value, mode);
    ok := writer.Write([34]);
    pieces := [[34]];
    if ok {
      ok := WriteEscaped(writer, value, mode);
      pieces := [[34], Escaped(value, mode)];
      assert writer.offered == before + pieces;
    }
    if ok {
      ok := writer.Write([34]);
      pieces := [[34], Escaped(value, mode), [34]];
      assert writer.offered == before + pieces;
    }
    writer.Regroup(before, pieces, Quoted(value, mode));
  }

  lemma QuotedPieces(value: Str, mode: Mode)
    ensures Renders([[34], Escaped(value, mode), [34]], Quoted(value, mode))
    ensures TotalWidth([[34]]) <= Utf8Length(Quoted(value, mode))
    ensures TotalWidth([[34], Escaped(value, mode)]) <= Utf8Length(Quoted(value, mode))
  {
    hide Escaped, Encode, EncodeAll, Join;
    var e := Escaped(value, mode);
    NothingEscaped([], mode);
    RendersMore([], [], [34]);
    assert [] + [[34]] == [[34]] && [] + [34] == [34];
    RendersMore([[34]], [34], e);
    assert [[34]] + [e] == [[34], e];
    RendersMore([[34], e], [34] + e, [34]);
    assert [[34], e] + [[34]] == [[34], e, [34]];
    EncodeConcat([34], e);
    EncodeConcat([34] + e, [34]);
  }

  /** Push an array: brackets, elements and separators, so that popping prints it. */
  method PushItems(pending: seq<Task>, items: seq<Value>) returns (r: seq<Task>)
    requires FencedTasks(pending)
    ensures FencedTasks(r) && r != [] && !r[|r| - 1].ValueTask?
    ensures Remaining(r) == Print(Array(items), Mode.Json) + Remaining(pending)
  {
    hide Print, Remaining, ItemsText;
    r := pending + [Literal([93])];
    PushTask(pending, Literal([93]));
    ghost var tail := [93] + Remaining(pending);
    NoItems(items, tail);
    for index := |items| downto 0
      invariant FencedTasks(r)
      invariant Remaining(r) == ItemsText(items[index..], index == 0, Mode.Json) + tail
    {
      ItemsStep(items, index, tail);
      ValueFenced(items[index]);
      PushTask(r, ValueTask(items[index]));
      r := r + [ValueTask(items[index])];
      if index > 0 {
        PushTask(r, Literal([44]));
        r := r + [Literal([44])];
      }
    }
    PushTask(r, Literal([91]));
    r := r + [Literal([91])];
    ArrayText(items, Remaining(pending));
  }

  lemma NoItems(items: seq<Value>, tail: Str)
    ensures ItemsText(items[|items|..], |items| == 0, Mode.Json) + tail == tail
  {
  }

  lemma ItemsStep(items: seq<Value>, index: nat, tail: Str)
    requires index < |items|
    ensures ItemsText(items[index..], index == 0, Mode.Json) + tail ==
      Comma(index == 0) + (Print(items[index], Mode.Json) + (ItemsText(items[index + 1..], false, Mode.Json) + tail))
    ensures forall s: Str :: [] + s == s
  {
    hide Print;
    assert items[index..][1..] == items[index + 1..];
  }

  lemma ArrayText(items: seq<Value>, rest: Str)
    ensures Print(Array(items), Mode.Json) + rest == [91] + (ItemsText(items[0..], true, Mode.Json) + ([93] + rest))
  {
    hide ItemsText;
    assert items[0..] == items;
  }

  method PushMembers(pending: seq<Task>, members: seq<Member>) returns (r: seq<Task>)
    requires FencedTasks(pending)
    ensures FencedTasks(r) && r != [] && !r[|r| - 1].ValueTask?
    ensures Remaining(r) == Print(Object(members), Mode.Json) + Remaining(pending)
  {
    hide Print, Remaining, Quoted, MembersText, MemberText;
    r := pending + [Literal([125])];
    PushTask(pending, Literal([125]));
    ghost var tail := [125] + Remaining(pending);
    NoMembers(members, tail);
    for index := |members| downto 0
      invariant FencedTasks(r)
      invariant Remaining(r) == MembersText(members[index..], index == 0, Mode.Json) + tail
    {
      MembersStep(members, index, tail);
      r := PushMember(r, members[index]);
      if index > 0 {
        PushTask(r, Literal([44]));
        r := r + [Literal([44])];
      }
    }
    PushTask(r, Literal([123]));
    r := r + [Literal([123])];
    ObjectText(members, Remaining(pending));
  }

  lemma NoMembers(members: seq<Member>, tail: Str)
    ensures MembersText(members[|members|..], |members| == 0, Mode.Json) + tail == tail
  {
  }

  lemma MembersStep(members: seq<Member>, index: nat, tail: Str)
    requires index < |members|
    ensures MembersText(members[index..], index == 0, Mode.Json) + tail ==
      Comma(index == 0) + (MemberText(members[index], Mode.Json) + (MembersText(members[index + 1..], false, Mode.Json) + tail))
    ensures forall s: Str :: [] + s == s
  {
    hide MemberText;
    assert members[index..][1..] == members[index + 1..];
  }

  lemma ObjectText(members: seq<Member>, rest: Str)
    ensures Print(Object(members), Mode.Json) + rest ==
      [123] + (MembersText(members[0..], true, Mode.Json) + ([125] + rest))
  {
    hide MembersText;
    assert members[0..] == members;
  }

  /** Value, colon and key, so that the key pops first. */
  method PushMember(pending: seq<Task>, m: Member) returns (r: seq<Task>)
    requires FencedTasks(pending)
    ensures FencedTasks(r)
    ensures Remaining(r) == MemberText(m, Mode.Json) + Remaining(pending)
  {
    hide Print, Remaining, Escaped;
    ValueFenced(m.value);
    StringFenced(m.key);
    PushTask(pending, ValueTask(m.value));
    r := pending + [ValueTask(m.value)];
    PushTask(r, Literal([58]));
    r := r + [Literal([58])];
    PushTask(r, StringTask(m.key));
    r := r + [StringTask(m.key)];
  }

  /** The text of a scalar that `writeJson` writes at once. */
  function ScalarText(v: Value): (r: Str)
    requires !v.String? && !v.Array? && !v.Object?
    ensures r == Print(v, Mode.Json)
  {
    match v
    case Bool(b) => if b then Ascii("true") else Ascii("false")
    case Number(n) => IntText(n)
    case _ => Ascii("null")
  }

  predicate Composite(task: Task) {
    task.ValueTask? && (task.v.String? || task.v.Array? || task.v.Object?)
  }

  /** Replace a composite value by the tasks that print it. */
  method Expand(rest: seq<Task>, task: Task) returns (r: seq<Task>)
    requires FencedTasks(rest) && Composite(task)
    ensures FencedTasks(r) && r != [] && !r[|r| - 1].ValueTask?
    ensures Remaining(r) == TaskText(task) + Remaining(rest)
  {
    hide Remaining, Quoted, ItemsText, MembersText;
    match task.v
    case String(s) =>
      StringFenced(s);
      PushTask(rest, StringTask(s));
      r := rest + [StringTask(s)];
    case Array(items) => r := PushItems(rest, items);
    case Object(members) => r := PushMembers(rest, members);
  }

  /** Write a task that produces its text at once. */
  method Emit(writer: BoundedWriter, task: Task) returns (ok: bool)
    requires writer.Valid() && !Composite(task)
    modifies writer
    ensures writer.Valid() && writer.offered == old(writer.offered) + [TaskText(task)]
    ensures ok == !writer.overflow
  {
    hide Print, Quoted, Encode, EncodeAll, Join;
    match task
    case Literal(text) => ok := writer.Write(text);
    case StringTask(s) => ok := WriteJsonString(writer, s, Mode.Json);
    case ValueTask(v) => ok := writer.Write(ScalarText(v));
  }

  /** Popping and pushing tasks writes exactly the text of the recursive printer; it
      counts as one piece, because no boundary between two writes splits a pair. */
  method WriteJson(writer: BoundedWriter, value: Value)
    requires writer.Valid()
    modifies writer
    ensures writer.Valid() && writer.offered == old(writer.offered) + [Print(value, Mode.Json)]
  {
    hide Print, Remaining, Encode, EncodeAll, Join, TaskText;
    var pending := [ValueTask(value)];
    ghost var before, pieces, done := writer.offered, [], [];
    NothingEscaped([], Mode.Json);
    EmptyRemaining(value);
    while pending != []
      invariant writer.Valid() && writer.offered == before + pieces
      invariant FencedTasks(pending) && Renders(pieces, done) && Closed(done)
      invariant done + Remaining(pending) == Print(value, Mode.Json)
      decreases |Remaining(pending)|, if pending != [] && pending[|pending| - 1].ValueTask? then 1 else 0
    {
      var task := pending[|pending| - 1];
      var rest := pending[..|pending| - 1];
      assert pending == rest + [task];
      PushTask(rest, task);
      if Composite(task) {
        pending := Expand(rest, task);
      } else {
        ghost var text := TaskText(task);
        assert Fenced(text);
        RendersMore(pieces, done, text);
        ConcatAssociates(done, text, Remaining(rest));
        var ok := Emit(writer, task);
        pieces, done, pending := pieces + [text], done + text, rest;
        if !ok {
          EncodeConcat(done, Remaining(rest));
          writer.Regroup(before, pieces, Print(value, Mode.Json));
          return;
        }
      }
    }
    NothingRemains();
    writer.Regroup(before, pieces, Print(value, Mode.Json));
  }

  lemma NothingRemains()
    ensures Remaining([]) == []
  {
  }

  lemma EmptyRemaining(value: Value)
    ensures Remaining([ValueTask(value)]) == Print(value, Mode.Json)
    ensures [] + Remaining([ValueTask(value)]) == Print(value, Mode.Json)
    ensures Fenced(TaskText(ValueTask(value)))
  {
    hide Print;
    PushTask([], ValueTask(value));
    assert [] + [ValueTask(value)] == [ValueTask(value)];
    ValueFenced(value);
  }

  /** The stored observation: the UTF-8 encoding of the JSON text, or the limit. */
  method SerializeJsonBytesBounded(value: Value, maximumBytes: nat) returns (r: BoundedResult<seq<Byte>>)
    requires maximumBytes <= MAX_SAFE_INTEGER
    ensures var text := Print(value, Mode.Json);
      r == if Utf8Length(text) <= maximumBytes then Ok(Utf8Length(text), Encode(text))
           else Limit(maximumBytes + 1)
  {
    hide Print, Encode;
    var writer := new BoundedWriter(maximumBytes);
    WriteJson(writer, value);
    SinglePiece(Print(value, Mode.Json));
    r := writer.ResultBytes();
  }

  lemma SinglePiece(text: Str)
    ensures EncodeAll([text]) == Encode(text)
    ensures EncodeAll([] + [text]) == Encode(text)
  {
    AppendPiece([], text);
    assert [] + [text] == [text];
  }
}
