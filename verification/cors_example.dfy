/** The worked example of the allowed-methods normalisation, one step per lemma. */
module CorsExample {
  import opened Text
  import opened SettingValidators

  lemma ExampleCommas()
    ensures Replace("get, GET, post", ',', ' ') == "get  GET  post"
  {
  }

  lemma ExampleStrip()
    ensures Strip("get  GET  post") == "get  GET  post"
  {
    StripNoOp("get  GET  post");
  }

  lemma ExampleUpper()
    ensures Upper("get  GET  post") == "GET  GET  POST"
  {
  }

  lemma ExampleWords()
    ensures Words("GET  GET  POST") == ["GET", "GET", "POST"]
  {
    var ws := ["GET", "GET", "POST"];
    assert Join(ws, "  ") == "GET  GET  POST";
    assert forall w :: w in ws ==> IsWord(w);
    WordsOfJoin(ws, "  ");
  }

  lemma ExampleDedup()
    ensures Dedup(["GET", "GET", "POST"]) == ["GET", "POST"]
  {
    var ws := ["GET", "GET", "POST"];
    assert ws[..2] == ["GET", "GET"];
    assert ws[..2][..1] == ["GET"];
    assert Dedup(["GET"]) == ["GET"] by { assert ["GET"][..0] == []; }
    assert Dedup(["GET", "GET"]) == ["GET"];
    assert "POST" != "GET" by { assert "POST"[0] != "GET"[0]; }
  }

  lemma ExampleJoin()
    ensures Join(["GET", "POST"], ", ") == "GET, POST"
  {
  }

  /** "get, GET, post" is stored as "GET, POST". */
  lemma CorsMethodsExample()
    ensures CorsMethods("get, GET, post") == "GET, POST"
  {
    ExampleCommas();
    ExampleStrip();
    ExampleUpper();
    ExampleWords();
    ExampleDedup();
    ExampleJoin();
  }
}
