/**
 privaite/streaming/buffer.py: the trie of fakes on the heap, and the hold-back
 buffer over it.
 */
module TrieBuffer {
  import opened Wrappers
  import opened DeAnonymizer
  import opened Streaming

  class TrieNode {
    var children: map<char, TrieNode>
    var value: Option<string>

    constructor ()
      ensures children == map[] && value == None
    {
      children := map[];
      value := None;
    }
  }

  class StreamingDeAnonymizer {
    var buffer: string
    const root: TrieNode
    var maxFakeLength: nat

    /** The fakes the trie was built from. */
    ghost var fakes: Fakes
    /** The node each path leads to. */
    ghost var nodes: map<string, TrieNode>

    /** The node of path `p` hangs where its path says, and so do its children. */
    ghost predicate Linked(p: string)
      requires p in nodes
      reads `nodes, nodes.Values`children
    {
      && (p != "" ==>
            var up, last := p[..|p| - 1], p[|p| - 1];
            up in nodes && last in nodes[up].children && nodes[up].children[last] == nodes[p])
      && (forall c :: c in nodes[p].children ==> p + [c] in nodes)
    }

    /** Two paths lead to two nodes. */
    ghost predicate Apart(p: string, q: string)
      requires p in nodes && q in nodes
      reads `nodes
    {
      nodes[p] != nodes[q]
    }

    /** The nodes form a tree whose paths are the keys of `nodes`. */
    ghost predicate Tree()
      reads `nodes, nodes.Values`children
    {
      && "" in nodes && nodes[""] == root
      && (forall p, q {:trigger Apart(p, q)} :: p in nodes && q in nodes && p != q ==> Apart(p, q))
      && (forall p {:trigger Linked(p)} :: p in nodes ==> Linked(p))
    }

    /** Each node carries the original of the fake spelled by its path. */
    ghost predicate Labelled()
      reads `nodes, `fakes, nodes.Values`value
    {
      && (forall p :: p in nodes ==> nodes[p].value == if p in fakes then Some(fakes[p]) else None)
      && (forall k :: k in fakes ==> k in nodes)
    }

    /** No path but those that lead to a fake. */
    ghost predicate Pruned()
      reads `nodes, `fakes
    {
      forall p {:trigger MayGrow(fakes, p)} :: p in nodes && p != "" ==> MayGrow(fakes, p)
    }

    /** The trie is the one of `fakes`. */
    ghost predicate Indexed()
      reads `nodes, `fakes, nodes.Values
    {
      Tree() && Labelled() && Pruned()
    }

    ghost predicate Valid()
      reads `nodes, `fakes, `maxFakeLength, nodes.Values
    {
      && Indexed()
      && forall k :: k in fakes ==> |k| <= maxFakeLength
    }

    /** The child of a node is the node of the longer path. */
    lemma {:induction false} ChildOf(p: string, c: char)
      requires Tree() && p in nodes
      ensures c in nodes[p].children <==> p + [c] in nodes
      ensures p + [c] in nodes ==> nodes[p].children[c] == nodes[p + [c]]
    {
      assert Linked(p);
      var q := p + [c];
      assert q[..|q| - 1] == p && q[|q| - 1] == c;
      assert q in nodes ==> Linked(q);
    }

    lemma {:induction false} PrefixInNodes(p: string, k: string)
      requires Tree() && k in nodes && p <= k
      ensures p in nodes
      decreases |k|
    {
      if p != k {
        assert Linked(k);
        assert p <= k[..|k| - 1];
        PrefixInNodes(p, k[..|k| - 1]);
      }
    }

    /** The paths of the trie are exactly the strings that may still grow into a fake. */
    lemma {:induction false} NodesAreGrowing(p: string)
      requires Tree() && Labelled() && Pruned() && p != ""
      ensures p in nodes <==> MayGrow(fakes, p)
    {
      if MayGrow(fakes, p) {
        var k :| k in fakes && p <= k;
        PrefixInNodes(p, k);
      }
    }

    constructor (mapping: Fakes)
      ensures Valid() && fresh(nodes.Values)
      ensures fakes == mapping && buffer == ""
    {
      buffer := "";
      maxFakeLength := 0;
      var r := new TrieNode();
      root := r;
      fakes := map[];
      nodes := map["" := r];
      new;
      var longest := InsertAll(mapping);
      maxFakeLength := longest;
    }

    method InsertAll(mapping: Fakes) returns (longest: nat)
      requires Indexed() && fakes == map[]
      modifies `nodes, `fakes, nodes.Values
      ensures Indexed() && fakes == mapping
      ensures fresh(nodes.Values - old(nodes.Values))
      ensures forall k :: k in fakes ==> |k| <= longest
    {
      var todo := mapping.Keys;
      longest := 0;
      while todo != {}
        invariant todo <= mapping.Keys
        invariant Indexed() && fresh(nodes.Values - old(nodes.Values))
        invariant fakes.Keys == mapping.Keys - todo
        invariant forall k :: k in fakes ==> fakes[k] == mapping[k] && |k| <= longest
        decreases |todo|
      {
        var fake :| fake in todo;
        InsertTrie(fake, mapping[fake]);
        if |fake| > longest {
          longest := |fake|;
        }
        todo := todo - {fake};
      }
    }

    /** Every path but those of `key` leads to a fake. */
    ghost predicate PrunedBut(key: string)
      reads `nodes, `fakes
    {
      forall p {:trigger MayGrow(fakes, p)} :: p in nodes && p != "" ==> MayGrow(fakes, p) || p <= key
    }

    /** One more path through the trie. */
    method AddPath(key: string) returns (node: TrieNode)
      requires Indexed()
      modifies `nodes, nodes.Values`children
      ensures Tree() && Labelled() && PrunedBut(key)
      ensures key in nodes && node == nodes[key]
      ensures fresh(nodes.Values - old(nodes.Values))
    {
      node := root;
      var i := 0;
      while i < |key|
        invariant 0 <= i <= |key|
        invariant Tree() && Labelled() && PrunedBut(key)
        invariant key[..i] in nodes && node == nodes[key[..i]]
        invariant fresh(nodes.Values - old(nodes.Values))
      {
        var ch := key[i];
        ghost var path := key[..i];
        assert path + [ch] == key[..i + 1];
        ChildOf(path, ch);
        if ch !in node.children {
          AddChild(node, path, ch);
        }
        ChildOf(path, ch);
        node := node.children[ch];
        i := i + 1;
      }
      assert key[..|key|] == key;
    }

    /** One more path through the trie, labelled at its end. */
    method InsertTrie(key: string, value: string)
      requires Indexed()
      modifies `nodes, `fakes, nodes.Values
      ensures Indexed()
      ensures fakes == old(fakes)[key := value]
      ensures fresh(nodes.Values - old(nodes.Values))
    {
      var node := AddPath(key);
      ghost var before := fakes;
      fakes := fakes[key := value];
      node.value := Some(value);
      forall p | p in nodes && p != key ensures nodes[p] != node {
        assert Apart(p, key);
      }
      forall p {:trigger MayGrow(fakes, p)} | p in nodes && p != "" ensures MayGrow(fakes, p) {
        assert MayGrow(before, p) || p <= key;
        StillGrows(before, key, value, p);
      }
    }

    static lemma {:induction false} StillGrows(before: Fakes, key: string, value: string, p: string)
      requires MayGrow(before, p) || p <= key
      ensures MayGrow(before[key := value], p)
    {
      if p <= key {
        assert key in before[key := value];
      } else {
        var k :| k in before && p <= k;
        assert k in before[key := value];
      }
    }

    /** Only one path is `path` and one character more. */
    static lemma {:induction false} OtherPath(p: string, path: string, ch: char)
      requires p != path + [ch]
      ensures p != "" ==> p[..|p| - 1] != path || p[|p| - 1] != ch
    {
      if p != "" {
        assert p == p[..|p| - 1] + [p[|p| - 1]];
      }
    }

    method AddChild(node: TrieNode, ghost path: string, ch: char)
      requires Tree() && Labelled()
      requires path in nodes && node == nodes[path] && ch !in node.children
      modifies `nodes, node`children
      ensures Tree() && Labelled()
      ensures path + [ch] in nodes && fresh(nodes[path + [ch]])
      ensures nodes == old(nodes)[path + [ch] := nodes[path + [ch]]]
      ensures ch in node.children
    {
      ghost var longer := path + [ch];
      ChildOf(path, ch);
      var child := new TrieNode();
      node.children := node.children[ch := child];
      nodes := nodes[longer := child];
      forall p | p in old(nodes) && p != path ensures nodes[p].children == old(nodes[p].children) {
        assert old(Apart(p, path));
      }
      assert Linked(longer) by {
        assert longer[..|longer| - 1] == path && longer[|longer| - 1] == ch;
      }
      forall p {:trigger Linked(p)} | p in old(nodes) ensures Linked(p) {
        assert old(Linked(p));
        assert p != longer;
        OtherPath(p, path, ch);
      }
      forall p, q {:trigger Apart(p, q)} | p in nodes && q in nodes && p != q ensures Apart(p, q) {
        if p != longer && q != longer { assert old(Apart(p, q)); }
      }
    }

    /** The longest fake that starts `text`, with its original. */
    method TrieLookup(text: string) returns (value: Option<string>, length: nat)
      requires Valid()
      ensures length == Longest(fakes, text)
      ensures value == if length > 0 then Some(fakes[text[..length]]) else None
    {
      var node := root;
      value, length := None, 0;
      var i := 0;
      while i < |text|
        invariant 0 <= i <= |text|
        invariant text[..i] in nodes && node == nodes[text[..i]]
        invariant length <= i && (length > 0 ==> text[..length] in fakes)
        invariant value == if length > 0 then Some(fakes[text[..length]]) else None
        invariant forall j :: length < j <= i ==> text[..j] !in fakes
      {
        var ch := text[i];
        assert text[..i] + [ch] == text[..i + 1];
        ChildOf(text[..i], ch);
        if ch !in node.children {
          forall j | i < j <= |text| ensures text[..j] !in fakes {
            if text[..j] in nodes { PrefixInNodes(text[..i + 1], text[..j]); }
          }
          break;
        }
        node := node.children[ch];
        if node.value != None {
          value := node.value;
          length := i + 1;
        }
        i := i + 1;
      }
      LongestIs(fakes, text, length);
    }

    /** Whether some fake starts with `text`. */
    method HasPrefix(text: string) returns (found: bool)
      requires Valid() && text != ""
      ensures found <==> MayGrow(fakes, text)
    {
      var node := root;
      for i := 0 to |text|
        invariant text[..i] in nodes && node == nodes[text[..i]]
      {
        var ch := text[i];
        assert text[..i] + [ch] == text[..i + 1];
        ChildOf(text[..i], ch);
        if ch !in node.children {
          if MayGrow(fakes, text) {
            NodesAreGrowing(text);
            PrefixInNodes(text[..i + 1], text);
          }
          return false;
        }
        node := node.children[ch];
      }
      assert text[..|text|] == text;
      NodesAreGrowing(text);
      return true;
    }

    /** What can be said about the start of `text`: how many characters are decided and
        what they give, or 0 when more input is needed. */
    method Decide(text: string) returns (length: nat, piece: string)
      requires Valid() && text != ""
      ensures length == 0 ==> Drain(fakes, text) == Fed("", text)
      ensures length > 0 ==> Decides(fakes, text, length, piece)
    {
      var matched, n := TrieLookup(text);
      if matched != None {
        return n, matched.value;
      }
      var open := HasPrefix(text);
      if |text| <= maxFakeLength && open {
        return 0, "";
      }
      return 1, text[..1];
    }

    /** The turns of `feed`: what is decided goes out, up to what is still open. */
    method Emit(text: string) returns (output: string, rest: string)
      requires Valid()
      ensures Fed(output, rest) == Drain(fakes, text)
    {
      rest, output := text, "";
      ghost var all := Drain(fakes, rest);
      assert all.After("") == all;
      while rest != ""
        invariant all == Drain(fakes, rest).After(output)
        decreases |rest|
      {
        var length, piece := Decide(rest);
        if length == 0 {
          assert output + "" == output;
          break;
        }
        DrainTurn(fakes, rest, output, length, piece);
        output := output + piece;
        rest := rest[length..];
      }
    }

    /** Emit what the buffer has decided, keep what is still open. */
    method Feed(token: string) returns (output: string)
      requires Valid()
      modifies `buffer
      ensures Valid()
      ensures Fed(output, buffer) == Drain(fakes, old(buffer) + token)
    {
      var rest;
      output, rest := Emit(buffer + token);
      buffer := rest;
    }

    /** Give up what is held back. */
    method Flush() returns (remaining: string)
      requires Valid()
      modifies `buffer
      ensures Valid() && buffer == "" && remaining == old(buffer)
    {
      remaining := buffer;
      buffer := "";
    }
  }
}
