/** The markup of the connection hint's links: the attribute that tells the
    node creator what to open, and the link `getAhref` builds for one group,
    as written and as evidently intended. */
module Markup {
  import opened Text

  /** One entry of `connectionsString`. */
  datatype ConnectionString = ConnectionString(connection: string, locale: string)

  /** The name prefix the node creator reads its parameters from. */
  const ParameterPrefix: string := "data-action-parameter-"
  const CreatorViewParameter: string := ParameterPrefix + "creatorview='AI'"
  const ConnectionTypePrefix: string := ParameterPrefix + "connectiontype='"

  /** `getConnectionParameterString`: the empty connection string opens the
      AI creator view; any other names its connection type. */
  function ParamString(connectionType: string): string
  {
    if connectionType == "" then CreatorViewParameter
    else ConnectionTypePrefix + connectionType + "'"
  }

  /** Every attribute is a node-creator parameter: its name starts with
      `data-action-parameter-`, and it ends with the quote that closes its
      value. The empty connection string names the creator view; any other
      is the quoted value of the connection-type parameter. */
  lemma ParamStringEnds(connectionType: string)
    ensures var p := ParamString(connectionType);
      && StartsWith(p, ParameterPrefix)
      && |p| > 1 && p[0] == 'd' && p[|p| - 1] == '\''
      && (connectionType == "" ==> p == CreatorViewParameter)
      && (connectionType != "" ==>
            StartsWith(p, ConnectionTypePrefix) && p[|ConnectionTypePrefix|..|p| - 1] == connectionType)
  {
    var p := ParamString(connectionType);
    assert ParameterPrefix[0] == 'd';
    if connectionType != "" {
      assert p == ConnectionTypePrefix + connectionType + "'";
      assert p[..|ParameterPrefix|] == ParameterPrefix;
    } else {
      assert p[..|ParameterPrefix|] == ParameterPrefix;
    }
  }

  /** Different connection strings give different attributes, so a link
      always says which group it is for. */
  lemma ParamStringInjective(c1: string, c2: string)
    requires ParamString(c1) == ParamString(c2)
    ensures c1 == c2
  {
    if c1 != "" && c2 != "" {
      var p1, p2 := ParamString(c1), ParamString(c2);
      assert c1 == p1[|ConnectionTypePrefix|..|p1| - 1];
      assert c2 == p2[|ConnectionTypePrefix|..|p2| - 1];
    }
  }

  /** The opening of every group link, up to the closed `data-action` value. */
  const AhrefOpen: string := "<a class=\"test\" data-action='openSelectiveNodeCreator'"

  lemma AhrefOpenEnds()
    ensures |AhrefOpen| == 54 && AhrefOpen[53] == '\''
  {
  }

  /** `getAhref` as written. */
  function GetAhrefAsWritten(cs: ConnectionString): string
  {
    AhrefOpen + ParamString(cs.connection) + "'>" + cs.locale + "</a>"
  }

  /** `getAhref` with the attributes laid out as the "Insert one" link of the
      same function lays them out: a space between them, and `>` right after
      the last closed value. */
  function GetAhref(cs: ConnectionString): string
  {
    AhrefOpen + " " + ParamString(cs.connection) + ">" + cs.locale + "</a>"
  }

  /** As written, the connection attribute's name starts right after the
      quote closing `data-action` (no whitespace between the attributes),
      and a stray quote follows the quote closing its own value, before `>`. */
  lemma AhrefAsWrittenMalformed(cs: ConnectionString)
    ensures var s, n := GetAhrefAsWritten(cs), |AhrefOpen|;
      var m := n + |ParamString(cs.connection)|;
      && s[n - 1] == '\'' && s[n] == 'd'
      && s[m - 1] == '\'' && s[m] == '\'' && s[m + 1] == '>'
  {
    ParamStringEnds(cs.connection);
    AhrefOpenEnds();
  }

  /** Corrected, a space separates the two attributes, and the tag closes
      right after the connection attribute's closing quote; the locale is the
      link text. */
  lemma AhrefWellFormed(cs: ConnectionString)
    ensures var s, n := GetAhref(cs), |AhrefOpen|;
      var m := n + 1 + |ParamString(cs.connection)|;
      && s[n - 1] == '\'' && s[n] == ' ' && s[n + 1] == 'd'
      && s[m - 1] == '\'' && s[m] == '>'
      && s[m + 1..|s| - 4] == cs.locale
  {
    ParamStringEnds(cs.connection);
    AhrefOpenEnds();
    var s := GetAhref(cs);
    assert s == (AhrefOpen + " " + ParamString(cs.connection) + ">") + cs.locale + "</a>";
  }
}
