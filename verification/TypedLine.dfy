/** From the key to the line: the keyboard interrupt, the buffer, the reader and the editor together. */
module TypedLine {
  import opened Common
  import opened KeycodeQueues
  import opened Keyboard
  import opened Console

  /**
   A task that reads a line while nobody else reads edits what was typed, whatever other tasks draw meanwhile:
   its line is the one that the scancodes stored by the interrupts denote, as far as they have been read, and
   with those still in the buffer, editor and screen go on from there.
   */
  lemma LineIsTyped<T>(ms: seq<Machine<T>>, actions: seq<Action<T>>, t: T, inputs: seq<Input>, v: View, room: nat)
    requires IsHistory(ms, actions) && OnlyReader(ms, actions, t) && ms[0].keys == []
    requires KeysOf(inputs) == Received(ms, actions, t)
    ensures var typed, rest := Accepted([], OpsOf(actions)), Strokes(ms[|actions|].keys);
      var r, w := Edit([], inputs, room), Display(v, [], inputs, room);
      var all, read := Edit([], Strokes(typed), room), Edit([], inputs + rest, room);
      && KeysOf(inputs + rest) == typed
      && all.line == read.line && all.phase == read.phase
      && read == (if r.phase.Waiting? then Edit(r.line, rest, room) else Editor(r.line, r.rest + rest, r.phase))
      && Display(v, [], inputs + rest, room) ==
           if w.Some? && r.phase.Waiting? then Display(w.value, r.line, rest, room) else w
  {
    var buffered := ms[|actions|].keys;
    SingleReader(ms, actions, t);
    assert [] + Accepted([], OpsOf(actions)) == Accepted([], OpsOf(actions));
    KeysOfConcat(inputs, Strokes(buffered));
    KeysOfStrokes(buffered);
    EditConcat(v, [], inputs, Strokes(buffered), room);
    EditKeys([], inputs + Strokes(buffered), room);
  }
}
