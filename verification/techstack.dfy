/** `detectTechStack`: find the provider of a repository URL, list the
    repository's top-level contents there, and collect the tag of every
    (pattern, tag) entry whose pattern occurs in some content name. The
    listing request is an input: `listContents(target)` is the provider's
    answer for the target the URL resolves to. */
module TechStack {
  import opened Text
  import opened Adapters

  /** The fixed pattern-to-tag table, in the order its entries are tried. */
  const TechMapping: seq<(string, string)> := [
    ("tmux", "tmux"), ("hypr", "hypr"), ("i3", "i3"), ("sway", "sway"), ("nvim", "neovim"),
    ("neovim", "neovim"), ("vim", "vim"), ("alacritty", "alacritty"), ("kitty", "kitty"),
    ("wezterm", "wezterm"), ("zsh", "zsh"), ("bash", "bash"), ("fish", "fish"),
    ("emacs", "emacs"), ("polybar", "polybar"), ("dunst", "dunst"), ("picom", "picom"),
    ("rofi", "rofi"), ("conky", "conky"), ("xmonad", "xmonad"), ("awesome", "awesomeWM"),
    ("qtile", "qtile"), ("openbox", "openbox"), ("bspwm", "bspwm"),
    ("herbstluftwm", "herbstluftwm"), ("fluxbox", "fluxbox"), ("lxqt", "lxqt"),
    ("cinnamon", "cinnamon"), ("xfce", "xfce"), ("gnome", "gnome"), ("kde", "kde/plasma"),
    ("plasma", "kde/plasma"), ("nix", "nix"), ("brew", "brew"), ("vscode", "vscode"),
    ("sublime", "sublime"), ("zprofile", "zprofile"), ("xprofile", "xprofile"),
    ("waybar", "waybar"), ("wofi", "wofi")
  ]

  /** Where the contents of a repository are listed. `repo` is absent when the
      URL has no '/' at all, so that destructuring the last two pieces leaves
      it undefined. */
  datatype Target =
    | GitHubContents(owner: string, repo: Option<string>)
    | GitLabTree(projectId: string)
    | CodebergContents(owner: string, repo: Option<string>)
    | NoProvider

  /** `parts.slice(-2)` destructured into two names. */
  function LastTwo(parts: seq<string>): (r: (string, Option<string>))
    requires |parts| >= 1
  {
    if |parts| >= 2 then (parts[|parts| - 2], Some(parts[|parts| - 1])) else (parts[0], None)
  }

  /** Provider dispatch: the first of "github.com", "gitlab.com" and
      "codeberg.org" that the URL contains decides; GitHub and Codeberg take
      owner and repository from the last two '/'-separated pieces, GitLab
      takes the last piece as the project id. */
  function ResolveTarget(url: string): (t: Target)
    ensures t.GitHubContents? <==> Includes(url, "github.com")
    ensures t.GitLabTree? <==> !Includes(url, "github.com") && Includes(url, "gitlab.com")
    ensures t.CodebergContents? <==>
      !Includes(url, "github.com") && !Includes(url, "gitlab.com") && Includes(url, "codeberg.org")
  {
    var parts := Split(url, '/');
    if Includes(url, "github.com") then
      var (owner, repo) := LastTwo(parts);
      GitHubContents(owner, repo)
    else if Includes(url, "gitlab.com") then
      GitLabTree(parts[|parts| - 1])
    else if Includes(url, "codeberg.org") then
      var (owner, repo) := LastTwo(parts);
      CodebergContents(owner, repo)
    else
      NoProvider
  }

  /** For a URL ending in ".../owner/repo", GitHub and Codeberg resolve to
      exactly that owner and repository. */
  lemma OwnerAndRepo(prefix: string, owner: string, repo: string)
    requires '/' !in owner && '/' !in repo
    ensures var url := prefix + "/" + owner + "/" + repo;
      LastTwo(Split(url, '/')) == (owner, Some(repo))
  {
    var url := prefix + "/" + owner + "/" + repo;
    assert url == prefix + ['/'] + (owner + ['/'] + repo);
    SplitAround(prefix, '/', owner + ['/'] + repo);
    SplitAround(owner, '/', repo);
    SplitWithoutSeparator(owner, '/');
    SplitWithoutSeparator(repo, '/');
  }

  lemma GitHubUrl(prefix: string, owner: string, repo: string)
    requires '/' !in owner && '/' !in repo
    requires Includes(prefix + "/" + owner + "/" + repo, "github.com")
    ensures ResolveTarget(prefix + "/" + owner + "/" + repo) == GitHubContents(owner, Some(repo))
  {
    OwnerAndRepo(prefix, owner, repo);
  }

  lemma CodebergUrl(prefix: string, owner: string, repo: string)
    requires '/' !in owner && '/' !in repo
    requires var url := prefix + "/" + owner + "/" + repo;
      !Includes(url, "github.com") && !Includes(url, "gitlab.com") && Includes(url, "codeberg.org")
    ensures ResolveTarget(prefix + "/" + owner + "/" + repo) == CodebergContents(owner, Some(repo))
  {
    OwnerAndRepo(prefix, owner, repo);
  }

  /** GitLab: the piece after the last '/' is passed on as the project id. */
  lemma GitLabUrl(prefix: string, last: string)
    requires '/' !in last
    requires !Includes(prefix + "/" + last, "github.com") && Includes(prefix + "/" + last, "gitlab.com")
    ensures ResolveTarget(prefix + "/" + last) == GitLabTree(last)
  {
    assert prefix + "/" + last == prefix + ['/'] + last;
    SplitAround(prefix, '/', last);
    SplitWithoutSeparator(last, '/');
  }

  // ---- matching ----------------------------------------------------------

  /** `acc.add(tag)` on a JavaScript Set, which keeps insertion order. */
  function AddTag(acc: seq<string>, tag: string): (r: seq<string>) {
    if tag in acc then acc else acc + [tag]
  }

  /** The inner loop over the table for one content name. */
  function AddMatches(acc: seq<string>, item: string, table: seq<(string, string)>): (r: seq<string>)
    decreases |table|
  {
    if table == [] then acc
    else
      var a := AddMatches(acc, item, table[..|table| - 1]);
      var (pattern, tag) := table[|table| - 1];
      if Includes(item, pattern) then AddTag(a, tag) else a
  }

  /** The reduce over the content names: `Array.from` of the resulting Set. */
  function Collect(table: seq<(string, string)>, contents: seq<string>): (r: seq<string>)
    decreases |contents|
  {
    if contents == [] then []
    else AddMatches(Collect(table, contents[..|contents| - 1]), contents[|contents| - 1], table)
  }

  /** Reference definition: the tags of all (name, entry) pairs whose pattern
      occurs in the name. */
  ghost function Matched(table: seq<(string, string)>, contents: seq<string>): (r: set<string>) {
    set item, j | item in contents && 0 <= j < |table| && Includes(item, table[j].0) :: table[j].1
  }

  predicate NoDuplicates(s: seq<string>) {
    forall i, j :: 0 <= i < j < |s| ==> s[i] != s[j]
  }

  /** Some entry of `table` whose pattern occurs in `item` carries tag `x`. */
  ghost predicate HasHit(table: seq<(string, string)>, item: string, x: string) {
    exists j :: 0 <= j < |table| && Includes(item, table[j].0) && table[j].1 == x
  }

  lemma {:induction false} AddMatchesElements(acc: seq<string>, item: string, table: seq<(string, string)>)
    ensures NoDuplicates(acc) ==> NoDuplicates(AddMatches(acc, item, table))
    ensures forall x :: x in AddMatches(acc, item, table) <==> x in acc || HasHit(table, item, x)
    decreases |table|
  {
    if table != [] {
      var init := table[..|table| - 1];
      AddMatchesElements(acc, item, init);
      forall x
        ensures HasHit(table, item, x) <==>
          HasHit(init, item, x) || (Includes(item, table[|table| - 1].0) && table[|table| - 1].1 == x)
      {
        if j :| 0 <= j < |table| && Includes(item, table[j].0) && table[j].1 == x {
          if j < |init| {
            assert init[j] == table[j];
          }
        }
        if j :| 0 <= j < |init| && Includes(item, init[j].0) && init[j].1 == x {
          assert init[j] == table[j];
        }
      }
    }
  }

  /** The collected tags, without duplicates, are exactly the reference set. */
  lemma {:induction false} CollectIsMatched(table: seq<(string, string)>, contents: seq<string>)
    ensures NoDuplicates(Collect(table, contents))
    ensures forall x :: x in Collect(table, contents) <==> x in Matched(table, contents)
    decreases |contents|
  {
    if contents != [] {
      var init := contents[..|contents| - 1];
      var last := contents[|contents| - 1];
      CollectIsMatched(table, init);
      AddMatchesElements(Collect(table, init), last, table);
      assert contents == init + [last];
      forall x
        ensures x in Matched(table, contents) <==> x in Matched(table, init) || HasHit(table, last, x)
      {
        if x in Matched(table, contents) {
          var item, j :| item in contents && 0 <= j < |table| && Includes(item, table[j].0) && table[j].1 == x;
          if item != last {
            assert item in init;
          }
        }
        if x in Matched(table, init) {
          var item, j :| item in init && 0 <= j < |table| && Includes(item, table[j].0) && table[j].1 == x;
          assert item in contents;
        }
        if HasHit(table, last, x) {
          var j :| 0 <= j < |table| && Includes(last, table[j].0) && table[j].1 == x;
          assert last in contents;
        }
      }
    }
  }

  /** Detection depends only on which names occur, not on their order or
      repetition. */
  lemma MatchedIgnoresOrder(table: seq<(string, string)>, c1: seq<string>, c2: seq<string>)
    requires forall x :: x in c1 <==> x in c2
    ensures Matched(table, c1) == Matched(table, c2)
  {
  }

  /** The detected tags depend only on which names the listing holds: two
      listings with the same names, in any order and with any repetition,
      give the same tags (possibly in another order). */
  lemma CollectIgnoresOrder(table: seq<(string, string)>, c1: seq<string>, c2: seq<string>)
    requires forall x :: x in c1 <==> x in c2
    ensures forall x :: x in Collect(table, c1) <==> x in Collect(table, c2)
  {
    CollectIsMatched(table, c1);
    CollectIsMatched(table, c2);
    MatchedIgnoresOrder(table, c1, c2);
  }


  // ---- detectTechStack ---------------------------------------------------

  /** The result of `detectTechStack`: the tags, or the listing request threw. */
  datatype Detection = Detected(tags: seq<string>) | ListingFailed

  /** Specification of `detectTechStack(url)`. A URL on none of the three
      hosts lists nothing and so detects nothing. */
  function Detect(url: string, listContents: Target -> Response<string>): (r: Detection) {
    var target := ResolveTarget(url);
    if target.NoProvider? then Detected([])
    else
      match listContents(target)
      case Failed => ListingFailed
      case Page(names) => Detected(Collect(TechMapping, names))
  }

  /** One more entry of the table: the inner loop's step. */
  lemma AddMatchesStep(acc: seq<string>, item: string, table: seq<(string, string)>, j: nat)
    requires j < |table|
    ensures AddMatches(acc, item, table[..j + 1]) ==
      (if Includes(item, table[j].0) then AddTag(AddMatches(acc, item, table[..j]), table[j].1)
       else AddMatches(acc, item, table[..j]))
  {
    assert table[..j + 1][..j] == table[..j];
  }

  /** One more content name: the outer loop's step. */
  lemma CollectStep(table: seq<(string, string)>, contents: seq<string>, k: nat)
    requires k < |contents|
    ensures Collect(table, contents[..k + 1]) == AddMatches(Collect(table, contents[..k]), contents[k], table)
  {
    assert contents[..k + 1][..k] == contents[..k];
  }

  method DetectTechStack(repoUrl: string, listContents: Target -> Response<string>) returns (d: Detection)
    ensures d == Detect(repoUrl, listContents)
  {
    var contents: seq<string> := [];
    var target := ResolveTarget(repoUrl);
    if !target.NoProvider? {
      var response := listContents(target);
      if response.Failed? {
        return ListingFailed;
      }
      contents := response.items;
    }
    var acc: seq<string> := [];
    for k := 0 to |contents|
      invariant acc == Collect(TechMapping, contents[..k])
    {
      var item := contents[k];
      CollectStep(TechMapping, contents, k);
      ghost var before := acc;
      for j := 0 to |TechMapping|
        invariant acc == AddMatches(before, item, TechMapping[..j])
      {
        AddMatchesStep(before, item, TechMapping, j);
        var (pattern, stack) := TechMapping[j];
        if Includes(item, pattern) {
          if stack !in acc {
            acc := acc + [stack];
          }
        }
      }
      assert TechMapping[..|TechMapping|] == TechMapping;
    }
    assert contents[..|contents|] == contents;
    d := Detected(acc);
  }

  /** What `detectTechStack` returns, stated against the reference set: it
      fails exactly when a provider was found and its listing failed, and
      otherwise returns each matched tag once. */
  lemma DetectMeaning(url: string, listContents: Target -> Response<string>)
    ensures Detect(url, listContents).ListingFailed? <==>
      !ResolveTarget(url).NoProvider? && listContents(ResolveTarget(url)).Failed?
    ensures ResolveTarget(url).NoProvider? ==> Detect(url, listContents) == Detected([])
    ensures !ResolveTarget(url).NoProvider? && listContents(ResolveTarget(url)).Page? ==>
      var tags := Detect(url, listContents).tags;
      NoDuplicates(tags) &&
      forall x :: x in tags <==> x in Matched(TechMapping, listContents(ResolveTarget(url)).items)
  {
    var target := ResolveTarget(url);
    if !target.NoProvider? && listContents(target).Page? {
      CollectIsMatched(TechMapping, listContents(target).items);
    }
  }

  /** What the caller of `detectTechStack` receives is bounded by the table:
      every tag is a value of `techMapping`, and a listing with no names
      detects no tags. */
  lemma DetectBounds(url: string, listContents: Target -> Response<string>)
    ensures Detect(url, listContents).Detected? ==>
      forall x :: x in Detect(url, listContents).tags ==>
        exists j :: 0 <= j < |TechMapping| && TechMapping[j].1 == x
    ensures !ResolveTarget(url).NoProvider? && listContents(ResolveTarget(url)) == Page([]) ==>
      Detect(url, listContents) == Detected([])
  {
    var target := ResolveTarget(url);
    if !target.NoProvider? && listContents(target).Page? {
      var names := listContents(target).items;
      CollectIsMatched(TechMapping, names);
      forall x | x in Collect(TechMapping, names)
        ensures exists j :: 0 <= j < |TechMapping| && TechMapping[j].1 == x
      {
        assert x in Matched(TechMapping, names);
      }
    }
  }

  /** Matching does not stop at the first hit: the one name "nvim" yields
      both "neovim" and "vim". */
  lemma NvimMatchesTwice()
    ensures "neovim" in Collect(TechMapping, ["nvim"]) && "vim" in Collect(TechMapping, ["nvim"])
  {
    assert TechMapping[4] == ("nvim", "neovim") && TechMapping[6] == ("vim", "vim");
    assert OccursAt("nvim", "nvim", 0);
    assert OccursAt("vim", "nvim", 1);
    assert Includes("nvim", TechMapping[4].0) && Includes("nvim", TechMapping[6].0);
    assert "nvim" in ["nvim"];
    CollectIsMatched(TechMapping, ["nvim"]);
    assert "neovim" in Matched(TechMapping, ["nvim"]);
    assert "vim" in Matched(TechMapping, ["nvim"]);
  }
}
