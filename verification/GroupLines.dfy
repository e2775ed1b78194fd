/**
 * The lines of shared groups: a group named by a request is found or given the next number of the shared band,
 * and the number is recorded before the line is written.
 */
module GroupLines {
  import opened Prelude
  import opened LedgerIds

  datatype Group = Group(name: string, gid: int, members: seq<string>)

  datatype Refusal = NameExists | GidExists | RangeExhausted | RecordFailed | Died

  datatype Result = Ok(gid: int) | Err(refusal: Refusal)

  /** What may go wrong on the way: the record cannot be read or written, or the process dies before the line. */
  datatype Fault = NoFault | RecordUnreadable | RecordUnwritable | DiesBeforeLine

  const NOBODY: int := 65534

  function Gids(lines: seq<Group>): set<int> {
    set g | g in lines :: g.gid
  }

  function ManagedGids(lines: seq<Group>, minGid: int): (r: seq<int>)
    ensures forall n :: n in r <==> n in Gids(lines) && n >= minGid && n != NOBODY
  {
    if lines == [] then []
    else
      var rest := ManagedGids(lines[1..], minGid);
      assert forall g :: g in lines <==> g == lines[0] || g in lines[1..];
      assert forall n :: n in Gids(lines) <==> n == lines[0].gid || n in Gids(lines[1..]);
      if lines[0].gid >= minGid && lines[0].gid != NOBODY then [lines[0].gid] + rest else rest
  }

  function NextGid(lines: seq<Group>, minGid: int, issuedMax: int): int {
    FirstFree(Gids(lines) + {NOBODY}, Max(Greatest(ManagedGids(lines, minGid), minGid - 1), issuedMax) + 1)
  }

  /** The next gid is the least unused one above every managed group, everything issued and the band's start. */
  lemma NextGidIsLeast(lines: seq<Group>, minGid: int, issuedMax: int)
    ensures var r := NextGid(lines, minGid, issuedMax);
            && GidMayFollow(lines, minGid, issuedMax, r)
            && forall n :: GidMayFollow(lines, minGid, issuedMax, n) ==> r <= n
  {
    forall n | GidMayFollow(lines, minGid, issuedMax, n) ensures NextGid(lines, minGid, issuedMax) <= n {
      assert n !in Gids(lines) + {NOBODY};
    }
  }

  predicate GidMayFollow(lines: seq<Group>, minGid: int, issuedMax: int, n: int) {
    && n >= minGid && n > issuedMax && n != NOBODY && n !in Gids(lines)
    && forall g :: g in Gids(lines) && g >= minGid && g != NOBODY ==> g < n
  }

  method AllocateNextGid(lines: seq<Group>, minGid: int, issuedMax: int) returns (gid: int)
    ensures gid == NextGid(lines, minGid, issuedMax)
  {
    gid := SkipUsed(Gids(lines) + {NOBODY}, Max(Greatest(ManagedGids(lines, minGid), minGid - 1), issuedMax) + 1);
  }

  /** The first line of that name. */
  function Find(lines: seq<Group>, name: string): (r: Option<Group>)
    ensures r.Some? ==> r.value in lines && r.value.name == name
    ensures r.None? ==> forall g :: g in lines ==> g.name != name
  {
    if lines == [] then None
    else if lines[0].name == name then Some(lines[0])
    else Find(lines[1..], name)
  }

  /** Names and numbers are unique, and the record covers every number of the shared band. */
  ghost predicate Tidy(b: Band, lines: seq<Group>, issuedMax: int) {
    && (forall i, j :: 0 <= i < j < |lines| ==> lines[i].name != lines[j].name && lines[i].gid != lines[j].gid)
    && (forall g :: g in lines && InBand(b, g.gid) ==> g.gid <= issuedMax)
  }

  lemma AppendKeepsTidy(b: Band, lines: seq<Group>, issuedMax: int, g: Group)
    requires Tidy(b, lines, issuedMax) && Find(lines, g.name).None? && g.gid !in Gids(lines)
    ensures Tidy(b, lines + [g], Max(issuedMax, g.gid))
  {
  }

  function Rewritten(lines: seq<Group>, name: string, members: seq<string>): (r: seq<Group>)
    ensures |r| == |lines|
    ensures forall k :: 0 <= k < |lines| ==>
              r[k] == if lines[k].name == name then lines[k].(members := members) else lines[k]
  {
    if lines == [] then []
    else [if lines[0].name == name then lines[0].(members := members) else lines[0]] + Rewritten(lines[1..], name, members)
  }

  lemma RewrittenKeepsTidy(b: Band, lines: seq<Group>, issuedMax: int, name: string, members: seq<string>)
    ensures Tidy(b, lines, issuedMax) ==> Tidy(b, Rewritten(lines, name, members), issuedMax)
  {
  }

  lemma {:induction false} FindAppended(lines: seq<Group>, g: Group)
    requires Find(lines, g.name).None?
    ensures Find(lines + [g], g.name) == Some(g)
  {
  }

  lemma {:induction false} FindRewritten(lines: seq<Group>, name: string, members: seq<string>)
    requires Find(lines, name).Some?
    ensures Find(Rewritten(lines, name, members), name) == Some(Find(lines, name).value.(members := members))
  {
    if lines[0].name != name {
      FindRewritten(lines[1..], name, members);
    }
  }

  // ---------- members in order ----------

  /** Text in the order of its characters. */
  predicate NotAfter(a: string, b: string) {
    a == [] || (b != [] && (a[0] < b[0] || (a[0] == b[0] && NotAfter(a[1..], b[1..]))))
  }

  lemma {:induction false} NotAfterIsTotal(a: string, b: string)
    ensures NotAfter(a, b) || NotAfter(b, a)
  {
    if a != [] && b != [] && a[0] == b[0] { NotAfterIsTotal(a[1..], b[1..]); }
  }

  lemma {:induction false} NotAfterIsTransitive(a: string, b: string, c: string)
    requires NotAfter(a, b) && NotAfter(b, c)
    ensures NotAfter(a, c)
  {
    if a != [] && a[0] == b[0] == c[0] { NotAfterIsTransitive(a[1..], b[1..], c[1..]); }
  }

  predicate InOrder(members: seq<string>) {
    forall i, j :: 0 <= i < j < |members| ==> NotAfter(members[i], members[j])
  }

  function Inserted(m: string, members: seq<string>): (r: seq<string>)
    ensures multiset(r) == multiset([m]) + multiset(members)
  {
    if members == [] || NotAfter(m, members[0]) then [m] + members
    else
      assert members == [members[0]] + members[1..];
      [members[0]] + Inserted(m, members[1..])
  }

  function InMemberOrder(members: seq<string>): (r: seq<string>)
    ensures multiset(r) == multiset(members)
  {
    if members == [] then []
    else
      assert members == [members[0]] + members[1..];
      Inserted(members[0], InMemberOrder(members[1..]))
  }

  lemma {:induction false} InsertedInOrder(m: string, members: seq<string>)
    requires InOrder(members)
    ensures InOrder(Inserted(m, members))
  {
    if members == [] {
    } else if NotAfter(m, members[0]) {
      forall j | 0 <= j < |members| ensures NotAfter(m, members[j]) {
        if j > 0 { NotAfterIsTransitive(m, members[0], members[j]); }
      }
    } else {
      var rest := Inserted(m, members[1..]);
      InsertedInOrder(m, members[1..]);
      NotAfterIsTotal(m, members[0]);
      forall j | 0 <= j < |rest| ensures NotAfter(members[0], rest[j]) {
        assert rest[j] in multiset(rest);
        assert rest[j] == m || rest[j] in members[1..];
      }
    }
  }

  /** The members of a written line: those asked for, each as often as asked for, in the order of their names. */
  lemma {:induction false} MembersAreSorted(members: seq<string>)
    ensures InOrder(InMemberOrder(members)) && multiset(InMemberOrder(members)) == multiset(members)
  {
    if members != [] {
      MembersAreSorted(members[1..]);
      InsertedInOrder(members[0], InMemberOrder(members[1..]));
    }
  }

  class GroupFile {
    const band: Band
    var lines: seq<Group>
    var issuedMax: int

    constructor (band: Band, lines: seq<Group>, issuedMax: int)
      ensures this.band == band && this.lines == lines && this.issuedMax == issuedMax
    {
      this.band, this.lines, this.issuedMax := band, lines, issuedMax;
    }

    /** Records the number of a new line, then writes the line. */
    method Append(line: Group, fault: Fault) returns (r: Result)
      requires Find(lines, line.name).None? && line.gid !in Gids(lines)
      modifies this
      ensures old(Tidy(band, lines, issuedMax)) ==> Tidy(band, lines, issuedMax)
      ensures r == match fault
                   case RecordUnwritable => Err(RecordFailed)
                   case DiesBeforeLine => Err(Died)
                   case _ => Ok(line.gid)
      ensures issuedMax == if r == Err(RecordFailed) then old(issuedMax) else Max(old(issuedMax), line.gid)
      ensures lines == if r.Ok? then old(lines) + [line] else old(lines)
      ensures r.Ok? ==> Find(lines, line.name) == Some(line)
      ensures forall n :: n != line.name ==> Find(lines, n) == Find(old(lines), n)
    {
      if fault.RecordUnwritable? {
        return Err(RecordFailed);
      }
      if line.gid > issuedMax {
        issuedMax := line.gid;
      }
      if fault.DiesBeforeLine? {
        return Err(Died);
      }
      if old(Tidy(band, lines, issuedMax)) {
        AppendKeepsTidy(band, lines, old(issuedMax), line);
      }
      FindAppended(lines, line);
      FindOthersAppended(lines, line);
      lines := lines + [line];
      return Ok(line.gid);
    }

    method IssueSharedGid(fault: Fault) returns (r: Result)
      ensures r == if fault.RecordUnreadable? then Err(RecordFailed)
                   else if InBand(band, NextGid(lines, band.low, issuedMax)) then Ok(NextGid(lines, band.low, issuedMax))
                   else Err(RangeExhausted)
    {
      if fault.RecordUnreadable? {
        return Err(RecordFailed);
      }
      var gid := AllocateNextGid(lines, band.low, issuedMax);
      NextGidIsLeast(lines, band.low, issuedMax);
      if band.high.Some? && gid > band.high.value {
        return Err(RangeExhausted);
      }
      return Ok(gid);
    }

    /**
     * The number of a shared group, given out on first use. Whoever asks again gets the same number and changes
     * nothing; a number given out is new to the file and to the record, and stays recorded even if the process
     * dies before the line is written.
     */
    method SharedGroupGid(name: string, fault: Fault) returns (r: Result)
      modifies this
      ensures old(Tidy(band, lines, issuedMax)) ==> Tidy(band, lines, issuedMax)
      ensures Find(old(lines), name).Some? ==>
                && lines == old(lines) && issuedMax == old(issuedMax)
                && var g := Find(old(lines), name).value;
                   r == if g.gid < band.low || (band.high.Some? && g.gid > band.high.value) then Err(NameExists) else Ok(g.gid)
      ensures Find(old(lines), name).None? && r.Ok? ==>
                && lines == old(lines) + [Group(name, r.gid, [])] && issuedMax == r.gid
                && GidMayFollow(old(lines), band.low, old(issuedMax), r.gid)
      ensures r.Ok? ==> Find(lines, name).Some? && Find(lines, name).value.gid == r.gid && InBand(band, r.gid)
      // a new name gets its number unless the band is exhausted or something breaks
      ensures Find(old(lines), name).None? ==>
                if fault.RecordUnreadable? then r == Err(RecordFailed)
                else if band.high.Some? && NextGid(old(lines), band.low, old(issuedMax)) > band.high.value
                then r == Err(RangeExhausted)
                else r == match fault
                          case RecordUnwritable => Err(RecordFailed)
                          case DiesBeforeLine => Err(Died)
                          case _ => Ok(NextGid(old(lines), band.low, old(issuedMax)))
      ensures r.Err? ==> lines == old(lines) && old(issuedMax) <= issuedMax
      ensures r == Err(Died) ==> issuedMax == NextGid(old(lines), band.low, old(issuedMax))
    {
      var existing := Find(lines, name);
      if existing.Some? {
        if !InBand(band, existing.value.gid) {
          return Err(NameExists);
        }
        return Ok(existing.value.gid);
      }
      r := IssueSharedGid(fault);
      if r.Err? {
        return;
      }
      NextGidIsLeast(lines, band.low, issuedMax);
      r := Append(Group(name, r.gid, []), fault);
    }

    /** Takes over a line that is there already, unless it is somebody else's. */
    method TakeOver(name: string, gid: Option<int>, members: seq<string>, fault: Fault) returns (r: Result)
      requires Find(lines, name).Some?
      modifies this`lines
      ensures old(Tidy(band, lines, issuedMax)) ==> Tidy(band, lines, issuedMax)
      ensures var was := Find(old(lines), name).value;
              && (r == Err(NameExists) <==>
                    (gid.Some? && gid.value != was.gid) || exists m :: m in was.members && m !in members)
              && (r == Err(Died) <==> r != Err(NameExists) && fault.DiesBeforeLine?)
              && (r.Err? ==> r == Err(NameExists) || r == Err(Died))
              && (r.Ok? ==> r.gid == was.gid && Find(lines, name) == Some(was.(members := InMemberOrder(members))))
      ensures r.Ok? ==> lines == Rewritten(old(lines), name, InMemberOrder(members))
      ensures r.Err? ==> lines == old(lines)
      ensures forall n :: n != name ==> Find(lines, n) == Find(old(lines), n)
    {
      var was := Find(lines, name).value;
      if (gid.Some? && gid.value != was.gid) || exists m :: m in was.members && m !in members {
        return Err(NameExists);
      }
      if fault.DiesBeforeLine? {
        return Err(Died);
      }
      var sorted := InMemberOrder(members);
      FindRewritten(lines, name, sorted);
      FindOthersRewritten(lines, name, sorted);
      RewrittenKeepsTidy(band, lines, issuedMax, name, sorted);
      lines := Rewritten(lines, name, sorted);
      return Ok(was.gid);
    }

    /**
     * Writes the line of a group that is being created. A line of that name is taken over when it asks for
     * nothing else; one with another number or with members the request does not name is left alone.
     */
    method WriteGroupLine(name: string, gid: Option<int>, members: seq<string>, fault: Fault) returns (r: Result)
      modifies this
      ensures old(Tidy(band, lines, issuedMax)) ==> Tidy(band, lines, issuedMax)
      ensures r.Err? ==> lines == old(lines) && old(issuedMax) <= issuedMax
      ensures r.Ok? ==> Find(lines, name) == Some(Group(name, r.gid, InMemberOrder(members)))
      ensures r.Ok? ==> forall n :: n != name ==> Find(lines, n) == Find(old(lines), n)
      ensures r.Ok? ==> lines == if Find(old(lines), name).Some? then Rewritten(old(lines), name, InMemberOrder(members))
                                 else old(lines) + [Group(name, r.gid, InMemberOrder(members))]
      ensures r.Ok? && gid.Some? ==> r.gid == gid.value
      // without a fault only a foreign line, a taken number or an exhausted band is in the way
      ensures fault.NoFault? && r.Err? ==> r == Err(NameExists) || r == Err(GidExists) || r == Err(RangeExhausted)
      ensures r == Err(RangeExhausted) ==>
                gid.None? && band.high.Some? && band.high.value < NextGid(old(lines), band.low, old(issuedMax))
      ensures var was := Find(old(lines), name);
              if was.Some? then
                && issuedMax == old(issuedMax)
                && (r.Ok? ==> r.gid == was.value.gid)
                && (r == Err(NameExists) <==>
                      (gid.Some? && gid.value != was.value.gid) || exists m :: m in was.value.members && m !in members)
              else
                && r != Err(NameExists)
                && (r == Err(GidExists) <==> gid.Some? && gid.value in Gids(old(lines)))
                && (r.Ok? ==> issuedMax == Max(old(issuedMax), r.gid) && r.gid !in Gids(old(lines)))
                && (r.Ok? && gid.None? ==> GidMayFollow(old(lines), band.low, old(issuedMax), r.gid))
    {
      if Find(lines, name).Some? {
        r := TakeOver(name, gid, members, fault);
        return;
      }
      if gid.None? {
        r := IssueSharedGid(fault);
        if r.Err? {
          return;
        }
        NextGidIsLeast(lines, band.low, issuedMax);
      } else if gid.value in Gids(lines) {
        return Err(GidExists);
      } else {
        r := Ok(gid.value);
      }
      r := Append(Group(name, r.gid, InMemberOrder(members)), fault);
    }
  }

  lemma {:induction false} FindOthersAppended(lines: seq<Group>, g: Group)
    ensures forall n :: n != g.name ==> Find(lines + [g], n) == Find(lines, n)
  {
    if lines != [] {
      assert (lines + [g])[1..] == lines[1..] + [g];
      FindOthersAppended(lines[1..], g);
    }
  }

  lemma {:induction false} FindOthersRewritten(lines: seq<Group>, name: string, members: seq<string>)
    ensures forall n :: n != name ==> Find(Rewritten(lines, name, members), n) == Find(lines, n)
  {
    if lines != [] {
      FindOthersRewritten(lines[1..], name, members);
    }
  }
}
