/** The writer of src/mojo.h: the bytes that each macro appends to the output file. */
module Mojo {
  import opened Common
  import opened MojoModel

  class Writer {
    var output: seq<Byte>

    constructor ()
      ensures output == []
    {
      output := [];
    }

    method PutByte(b: Byte)
      modifies this
      ensures output == old(output) + [b]
    {
      output := output + [b];
    }

    method PutInteger(n: nat, sign: bool)
      modifies this
      ensures output == old(output) + Integer(n, sign)
    {
      var integer := n;
      var byte: Byte := integer % 64;
      if sign {
        byte := byte + 64;
      }
      integer := integer / 64;
      if integer != 0 {
        byte := byte + 128;
      }
      PutByte(byte);
      assert output + Rest(n / 64) == old(output) + Integer(n, sign);
      while integer != 0
        invariant output + Rest(integer) == old(output) + Integer(n, sign)
      {
        ghost var before, m := output, integer;
        byte := integer % 128;
        integer := integer / 128;
        if integer != 0 {
          byte := byte + 128;
        }
        PutByte(byte);
        assert before + Rest(m) == before + [byte] + Rest(integer);
      }
      assert output + Rest(0) == output;
    }

    method PutRef(key: nat)
      modifies this
      ensures output == old(output) + Integer(Ref(key), false)
    {
      PutInteger(Ref(key), false);
    }

    method PutString(s: Text)
      modifies this
      ensures output == old(output) + String(s)
    {
      output := output + s;
      PutByte(0);
    }

    method Header()
      modifies this
      ensures output == old(output) + FileHeader()
    {
      output := output + MAGIC;
      PutInteger(MOJO_VERSION, false);
    }

    method PutMetadata(tag: Text, value: Text)
      modifies this
      ensures output == old(output) + Encode(Metadata(tag, value))
    {
      hide String;
      ghost var start, a, b := output, String(tag), String(value);
      PutByte(1);
      PutString(tag);
      PutString(value);
      assert output == start + ([1] + a + b);
    }

    method PutStack(pid: nat, iid: nat, tid: nat)
      modifies this
      ensures output == old(output) + Encode(Stack(pid, iid, tid))
    {
      hide Integer, Integers, Hex, String;
      ghost var start, a, b := output, Integer(pid, false), Integer(iid, false);
      PutByte(2);
      PutInteger(pid, false);
      PutInteger(iid, false);
      assert output == start + ([2] + (a + b));
      IntegersTwo(pid, iid);
      PutString(Hex(tid));
    }

    method PutFrame(key: nat, filename: nat, scope: nat, line: nat, lineEnd: nat, column: nat, columnEnd: nat)
      modifies this
      ensures output == old(output) + Encode(Frame(key, Ref(filename), Ref(scope), line, lineEnd, column, columnEnd))
    {
      hide Integer, Integers, Ref;
      ghost var start := output;
      PutByte(3);
      assert [3] + [] == [3];
      PutField(start, [], key);
      ghost var b1 := Integer(key, false);
      assert [] + b1 == b1;
      PutFieldRef(start, b1, filename);
      ghost var b2 := b1 + Integer(Ref(filename), false);
      PutFieldRef(start, b2, scope);
      ghost var b3 := b2 + Integer(Ref(scope), false);
      PutField(start, b3, line);
      ghost var b4 := b3 + Integer(line, false);
      PutField(start, b4, lineEnd);
      ghost var b5 := b4 + Integer(lineEnd, false);
      PutField(start, b5, column);
      ghost var b6 := b5 + Integer(column, false);
      PutField(start, b6, columnEnd);
      IntegersSeven(key, Ref(filename), Ref(scope), line, lineEnd, column, columnEnd);
    }

    /** One more field of a frame event. */
    method PutField(ghost start: seq<Byte>, ghost body: seq<Byte>, n: nat)
      requires output == start + ([3] + body)
      modifies this
      ensures output == start + ([3] + (body + Integer(n, false)))
    {
      PutInteger(n, false);
    }

    method PutFieldRef(ghost start: seq<Byte>, ghost body: seq<Byte>, key: nat)
      requires output == start + ([3] + body)
      modifies this
      ensures output == start + ([3] + (body + Integer(Ref(key), false)))
    {
      PutRef(key);
    }

    method PutFrameInvalid()
      modifies this
      ensures output == old(output) + Encode(FrameInvalid)
    {
      PutByte(4);
    }

    method PutFrameRef(key: nat)
      modifies this
      ensures output == old(output) + Encode(FrameRef(key))
    {
      hide Integer, Integers, Ref;
      PutByte(5);
      PutInteger(key, false);
      IntegersOne(key);
    }

    method PutFrameKernel(symbol: Text)
      modifies this
      ensures output == old(output) + Encode(FrameKernel(symbol))
    {
      PutByte(6);
      PutString(symbol);
    }

    method PutGc()
      modifies this
      ensures output == old(output) + Encode(Gc)
    {
      PutByte(7);
    }

    method PutIdle()
      modifies this
      ensures output == old(output) + Encode(Idle)
    {
      PutByte(8);
    }

    method PutMetricTime(time: nat)
      modifies this
      ensures output == old(output) + Encode(MetricTime(time))
    {
      hide Integer, Integers, Ref;
      PutByte(9);
      PutInteger(time, false);
      IntegersOne(time);
    }

    method PutMetricMemory(memory: int)
      modifies this
      ensures output == old(output) + Encode(MetricMemory(memory))
    {
      hide Integer, Integers, Ref;
      PutByte(10);
      PutInteger(if memory < 0 then -memory else memory, memory < 0);
    }

    method PutStringDef(key: nat, text: Text)
      modifies this
      ensures output == old(output) + Encode(StringDef(Ref(key), text))
    {
      hide Integer, Integers, Ref;
      PutByte(11);
      PutRef(key);
      PutString(text);
      IntegersOne(Ref(key));
    }

    method PutStringRef(key: nat)
      modifies this
      ensures output == old(output) + Encode(StringRef(Ref(key)))
    {
      hide Integer, Integers, Ref;
      PutByte(12);
      PutRef(key);
      IntegersOne(Ref(key));
    }
  }

  lemma {:induction false} IntegersOne(a: nat)
    ensures Integers([a]) == Integer(a, false)
  {
    assert [a][1..] == [];
  }

  lemma {:induction false} IntegersTwo(a: nat, b: nat)
    ensures Integers([a, b]) == Integer(a, false) + Integer(b, false)
  {
    assert [a, b][1..] == [b];
    IntegersOne(b);
  }

  lemma {:induction false} IntegersSeven(a: nat, b: nat, c: nat, d: nat, e: nat, f: nat, g: nat)
    ensures Integers([a, b, c, d, e, f, g]) ==
            Integer(a, false) + Integer(b, false) + Integer(c, false) + Integer(d, false)
            + Integer(e, false) + Integer(f, false) + Integer(g, false)
  {
    hide Integer;
    IntegersTwo(f, g);
    IntegersCons(e, [f, g]);
    IntegersCons(d, [e, f, g]);
    IntegersCons(c, [d, e, f, g]);
    IntegersCons(b, [c, d, e, f, g]);
    IntegersCons(a, [b, c, d, e, f, g]);
  }

  lemma {:induction false} IntegersCons(a: nat, ns: seq<nat>)
    ensures Integers([a] + ns) == Integer(a, false) + Integers(ns)
  {
    assert ([a] + ns)[1..] == ns;
  }
}
