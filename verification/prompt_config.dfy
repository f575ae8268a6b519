/**
 * `PromptConfigManager` (src/prompt_config.py): the prompt configuration,
 * a map from prompt type to a map from prompt id to entry. It is loaded
 * from a JSON file, type by type falling back to the built-in templates,
 * and written back after every change.
 *
 * The template texts of `DEFAULT_PROMPTS` are a parameter; the file is a
 * `ConfigFile`; writing it is recorded in the manager's state and succeeds.
 */
module PromptConfig {

  import opened Wrappers
  import opened Records

  /** A value under a prompt id. The built-in types hold bare template
      strings; `add_prompt` stores an object with a name, a description and
      a template, which a hand-edited file may leave out. */
  datatype Entry = Text(text: string) | Prompt(name: string, description: string, template: Option<string>)

  type Category = map<string, Entry>
  type Prompts = map<string, Category>

  /** The `template` fields of `DEFAULT_PROMPTS`. */
  datatype Defaults = Defaults(instruction: string, input: string, output: string, chosen: string, rejected: string)

  const SftCategory := "sft"
  const DpoCategory := "dpo"
  const SftToDpoCategory := "sft_to_dpo"
  const DefaultId := "default"

  /** The types the loader always builds. */
  const Managed: set<string> := {SftCategory, DpoCategory, SftToDpoCategory}

  // ---------------------------------------------------------------------
  // The three built-in types

  function SftTemplates(instruction: string, input: string, output: string): (c: Category)
    ensures c.Keys == {InstructionKey, InputKey, OutputKey}
  {
    map[InstructionKey := Text(instruction), InputKey := Text(input), OutputKey := Text(output)]
  }

  function DpoTemplates(instruction: string, input: string, chosen: string, rejected: string): (c: Category)
    ensures c.Keys == {InstructionKey, InputKey, ChosenKey, RejectedKey}
  {
    map[InstructionKey := Text(instruction), InputKey := Text(input), ChosenKey := Text(chosen),
        RejectedKey := Text(rejected)]
  }

  function SftToDpoTemplates(rejected: string): (c: Category)
    ensures c.Keys == {RejectedKey}
  {
    map[RejectedKey := Text(rejected)]
  }

  /** `_get_default_prompts()`: the three built-in types, each holding the
      default templates of its fields. */
  function DefaultPrompts(d: Defaults): (p: Prompts)
    ensures p.Keys == Managed
    ensures p[SftCategory] == SftTemplates(d.instruction, d.input, d.output)
    ensures p[DpoCategory] == DpoTemplates(d.instruction, d.input, d.chosen, d.rejected)
    ensures p[SftToDpoCategory] == SftToDpoTemplates(d.rejected)
  {
    map[SftCategory := SftTemplates(d.instruction, d.input, d.output),
        DpoCategory := DpoTemplates(d.instruction, d.input, d.chosen, d.rejected),
        SftToDpoCategory := SftToDpoTemplates(d.rejected)]
  }

  // ---------------------------------------------------------------------
  // Loading

  /** The configuration file: absent; present but not readable as a JSON
      object (a read error, bad JSON, or a value whose `.get` raises); or a
      JSON object of prompt types. */
  datatype ConfigFile = NoConfigFile | Corrupt | ConfigObject(saved: Prompts)

  /** `saved_prompts.get(c, default)` */
  function SavedOr(saved: Prompts, c: string, default: Category): Category {
    if c in saved then saved[c] else default
  }

  /** `_load_prompts()`. Only the three built-in types are read back; each
      comes from the file when the file names it and is the default
      otherwise. */
  function LoadPrompts(file: ConfigFile, d: Defaults): (p: Prompts)
    ensures p.Keys == Managed
    ensures forall c :: c in Managed && file.ConfigObject? && c in file.saved ==> p[c] == file.saved[c]
    ensures forall c :: c in Managed && !(file.ConfigObject? && c in file.saved) ==> p[c] == DefaultPrompts(d)[c]
  {
    match file
    case ConfigObject(saved) =>
      map[SftCategory := SavedOr(saved, SftCategory, SftTemplates(d.instruction, d.input, d.output)),
          DpoCategory := SavedOr(saved, DpoCategory, DpoTemplates(d.instruction, d.input, d.chosen, d.rejected)),
          SftToDpoCategory := SavedOr(saved, SftToDpoCategory, SftToDpoTemplates(d.rejected))]
    case _ => DefaultPrompts(d)
  }

  /** A file holding exactly the built-in types loads back as written. */
  lemma LoadAfterSave(p: Prompts, d: Defaults)
    requires p.Keys == Managed
    ensures LoadPrompts(ConfigObject(p), d) == p
  {
    var r := LoadPrompts(ConfigObject(p), d);
    assert r.Keys == p.Keys;
    forall c | c in r ensures r[c] == p[c] {
    }
  }

  /** Writing back what was loaded and loading again changes nothing. */
  lemma LoadIsStable(file: ConfigFile, d: Defaults)
    ensures LoadPrompts(ConfigObject(LoadPrompts(file, d)), d) == LoadPrompts(file, d)
  {
    LoadAfterSave(LoadPrompts(file, d), d);
  }

  /** A prompt type other than the built-in ones is not read back. */
  lemma OtherTypesNotLoaded(file: ConfigFile, d: Defaults, t: string)
    requires t !in Managed
    ensures t !in LoadPrompts(file, d)
  {
  }

  // ---------------------------------------------------------------------
  // Lookups

  /** `get_prompts_by_type(t)`: the type's entries, none when it is absent. */
  function CategoryOf(p: Prompts, t: string): (c: Category)
    ensures t in p ==> c == p[t]
    ensures t !in p ==> c == map[]
  {
    if t in p then p[t] else map[]
  }

  /** `entry.get('template', '')`: a bare string has no `get`. */
  function TemplateOf(e: Entry): (r: Result<string>)
    ensures r.Err? <==> e.Text?
    ensures r.Err? ==> r.error == AttributeError
    ensures e.Prompt? && e.template.Some? ==> r == Ok(e.template.value)
    ensures e.Prompt? && e.template.None? ==> r == Ok("")
  {
    match e
    case Text(_) => Err(AttributeError)
    case Prompt(_, _, template) => Ok(template.GetOr(""))
  }

  /** `get_prompt_template(t, id)`: the id's template, else the `default`
      id's template, else `None`. */
  function PromptTemplate(p: Prompts, t: string, id: string): (r: Result<Option<string>>)
    ensures r == Ok(None) <==> id !in CategoryOf(p, t) && DefaultId !in CategoryOf(p, t)
    ensures id in CategoryOf(p, t) ==>
              (r.Err? <==> CategoryOf(p, t)[id].Text?)
              && (r.Ok? ==> r.value == Some(TemplateOf(CategoryOf(p, t)[id]).value))
    ensures id !in CategoryOf(p, t) && DefaultId in CategoryOf(p, t) ==>
              (r.Err? <==> CategoryOf(p, t)[DefaultId].Text?)
              && (r.Ok? ==> r.value == Some(TemplateOf(CategoryOf(p, t)[DefaultId]).value))
  {
    var c := CategoryOf(p, t);
    var found := if id in c then Some(c[id]) else if DefaultId in c then Some(c[DefaultId]) else None;
    match found
    case None => Ok(None)
    case Some(e) =>
      var s :- TemplateOf(e);
      Ok(Some(s))
  }

  // ---------------------------------------------------------------------
  // add_prompt, update_prompt, delete_prompt

  /** The state after a `bool`-returning change: its result, and whether the
      file was written (with the new state). */
  datatype Change = Change(prompts: Prompts, ok: bool, saved: bool)

  /** `add_prompt(t, id, name, description, template)`: creates the type when
      absent and sets or overwrites the entry; nothing else changes. */
  function AddPrompt(p: Prompts, t: string, id: string, name: string, description: string, template: string)
    : (r: Change)
    ensures r.ok && r.saved
    ensures r.prompts.Keys == p.Keys + {t}
    ensures r.prompts[t].Keys == CategoryOf(p, t).Keys + {id}
    ensures r.prompts[t][id] == Prompt(name, description, Some(template))
    ensures forall i :: i in CategoryOf(p, t) && i != id ==> r.prompts[t][i] == p[t][i]
    ensures forall u :: u in p && u != t ==> r.prompts[u] == p[u]
  {
    var c := CategoryOf(p, t);
    Change(p[t := c[id := Prompt(name, description, Some(template))]], true, true)
  }

  /** `update_prompt(t, id, name, description, template)`: only an existing
      entry changes; otherwise the result is `False` and nothing changes. */
  function UpdatePrompt(p: Prompts, t: string, id: string, name: string, description: string, template: string)
    : (r: Change)
    ensures r.ok <==> t in p && id in p[t]
    ensures r.saved == r.ok
    ensures !r.ok ==> r.prompts == p
    ensures r.ok ==>
              && r.prompts.Keys == p.Keys && r.prompts[t].Keys == p[t].Keys
              && r.prompts[t][id] == Prompt(name, description, Some(template))
              && (forall i :: i in p[t] && i != id ==> r.prompts[t][i] == p[t][i])
              && (forall u :: u in p && u != t ==> r.prompts[u] == p[u])
  {
    if t in p && id in p[t] then
      Change(p[t := p[t][id := Prompt(name, description, Some(template))]], true, true)
    else Change(p, false, false)
  }

  /** A successful update is the add of an id already there. */
  lemma UpdateIsAddOfExisting(p: Prompts, t: string, id: string, name: string, description: string, template: string)
    requires t in p && id in p[t]
    ensures UpdatePrompt(p, t, id, name, description, template) == AddPrompt(p, t, id, name, description, template)
  {
  }

  /** `delete_prompt(t, id)`: removes an existing entry other than `default`
      and reports whether it removed one; otherwise nothing changes. */
  function DeletePrompt(p: Prompts, t: string, id: string): (r: Change)
    ensures r.ok <==> t in p && id in p[t] && id != DefaultId
    ensures r.saved == r.ok
    ensures !r.ok ==> r.prompts == p
    ensures r.ok ==>
              && r.prompts.Keys == p.Keys
              && r.prompts[t] == p[t] - {id}
              && (forall u :: u in p && u != t ==> r.prompts[u] == p[u])
    ensures forall u :: DefaultId in CategoryOf(p, u) ==>
              DefaultId in CategoryOf(r.prompts, u) && CategoryOf(r.prompts, u)[DefaultId] == p[u][DefaultId]
  {
    if t in p && id in p[t] && id != DefaultId then Change(p[t := p[t] - {id}], true, true)
    else Change(p, false, false)
  }

  /** Deleting a newly added id of an existing type restores the state. */
  lemma AddThenDelete(p: Prompts, t: string, id: string, name: string, description: string, template: string)
    requires t in p && id !in p[t] && id != DefaultId
    ensures DeletePrompt(AddPrompt(p, t, id, name, description, template).prompts, t, id) == Change(p, true, true)
  {
    var q := AddPrompt(p, t, id, name, description, template).prompts;
    var r := DeletePrompt(q, t, id).prompts;
    assert r[t] == p[t];
    assert r == p;
  }

  /** An added prompt is what `get_prompt_template` returns for its id. */
  lemma TemplateAfterAdd(p: Prompts, t: string, id: string, name: string, description: string, template: string)
    ensures PromptTemplate(AddPrompt(p, t, id, name, description, template).prompts, t, id) == Ok(Some(template))
  {
  }

  /** Once an id is deleted, `get_prompt_template` falls back to `default`. */
  lemma TemplateAfterDelete(p: Prompts, t: string, id: string)
    requires t in p && id in p[t] && id != DefaultId && DefaultId in p[t]
    ensures PromptTemplate(DeletePrompt(p, t, id).prompts, t, id) == PromptTemplate(p, t, DefaultId)
  {
  }

  // ---------------------------------------------------------------------
  // The per-type getters, updates and resets

  /** `self.prompts.get(c, default)` for a built-in type. */
  function BuiltIn(p: Prompts, d: Defaults, c: string): (r: Category)
    requires c in Managed
    ensures c in p ==> r == p[c]
    ensures c !in p ==> r == DefaultPrompts(d)[c]
  {
    if c in p then p[c] else DefaultPrompts(d)[c]
  }

  /** Sets one type and keeps every other one. */
  function SetCategory(p: Prompts, c: string, entries: Category): (r: Prompts)
    ensures r.Keys == p.Keys + {c}
    ensures r[c] == entries
    ensures forall u :: u in p && u != c ==> r[u] == p[u]
  {
    p[c := entries]
  }

  /** `get_sft_prompts()` */
  function SftPrompts(p: Prompts, d: Defaults): (r: Category)
    ensures SftCategory !in p ==> r == SftTemplates(d.instruction, d.input, d.output)
    ensures SftCategory in p ==> r == p[SftCategory]
  {
    BuiltIn(p, d, SftCategory)
  }

  /** `get_dpo_prompts()` */
  function DpoPrompts(p: Prompts, d: Defaults): (r: Category)
    ensures DpoCategory !in p ==> r == DpoTemplates(d.instruction, d.input, d.chosen, d.rejected)
    ensures DpoCategory in p ==> r == p[DpoCategory]
  {
    BuiltIn(p, d, DpoCategory)
  }

  /** `get_sft_to_dpo_prompts()` */
  function SftToDpoPrompts(p: Prompts, d: Defaults): (r: Category)
    ensures SftToDpoCategory !in p ==> r == SftToDpoTemplates(d.rejected)
    ensures SftToDpoCategory in p ==> r == p[SftToDpoCategory]
  {
    BuiltIn(p, d, SftToDpoCategory)
  }

  /** `update_sft_prompts(instruction, input, output)` */
  function UpdateSftPrompts(p: Prompts, instruction: string, input: string, output: string): (r: Prompts)
    ensures r.Keys == p.Keys + {SftCategory}
    ensures forall u :: u in p && u != SftCategory ==> r[u] == p[u]
  {
    SetCategory(p, SftCategory, SftTemplates(instruction, input, output))
  }

  /** `reset_sft_prompts()` */
  function ResetSftPrompts(p: Prompts, d: Defaults): (r: Prompts)
    ensures r.Keys == p.Keys + {SftCategory}
    ensures r[SftCategory] == DefaultPrompts(d)[SftCategory]
    ensures forall u :: u in p && u != SftCategory ==> r[u] == p[u]
  {
    SetCategory(p, SftCategory, DefaultPrompts(d)[SftCategory])
  }

  /** `update_dpo_prompts(instruction, input, chosen, rejected)` */
  function UpdateDpoPrompts(p: Prompts, instruction: string, input: string, chosen: string, rejected: string)
    : (r: Prompts)
    ensures r.Keys == p.Keys + {DpoCategory}
    ensures forall u :: u in p && u != DpoCategory ==> r[u] == p[u]
  {
    SetCategory(p, DpoCategory, DpoTemplates(instruction, input, chosen, rejected))
  }

  /** `reset_dpo_prompts()` */
  function ResetDpoPrompts(p: Prompts, d: Defaults): (r: Prompts)
    ensures r.Keys == p.Keys + {DpoCategory}
    ensures r[DpoCategory] == DefaultPrompts(d)[DpoCategory]
    ensures forall u :: u in p && u != DpoCategory ==> r[u] == p[u]
  {
    SetCategory(p, DpoCategory, DefaultPrompts(d)[DpoCategory])
  }

  /** `update_sft_to_dpo_prompts(rejected)` */
  function UpdateSftToDpoPrompts(p: Prompts, rejected: string): (r: Prompts)
    ensures r.Keys == p.Keys + {SftToDpoCategory}
    ensures forall u :: u in p && u != SftToDpoCategory ==> r[u] == p[u]
  {
    SetCategory(p, SftToDpoCategory, SftToDpoTemplates(rejected))
  }

  /** `reset_sft_to_dpo_prompts()` */
  function ResetSftToDpoPrompts(p: Prompts, d: Defaults): (r: Prompts)
    ensures r.Keys == p.Keys + {SftToDpoCategory}
    ensures r[SftToDpoCategory] == DefaultPrompts(d)[SftToDpoCategory]
    ensures forall u :: u in p && u != SftToDpoCategory ==> r[u] == p[u]
  {
    SetCategory(p, SftToDpoCategory, DefaultPrompts(d)[SftToDpoCategory])
  }

  /** Each getter returns exactly the fields its update wrote. */
  lemma GetAfterUpdate(p: Prompts, d: Defaults, instruction: string, input: string, output: string,
                       chosen: string, rejected: string)
    ensures var c := SftPrompts(UpdateSftPrompts(p, instruction, input, output), d);
            && c.Keys == {InstructionKey, InputKey, OutputKey}
            && c[InstructionKey] == Text(instruction) && c[InputKey] == Text(input) && c[OutputKey] == Text(output)
    ensures var c := DpoPrompts(UpdateDpoPrompts(p, instruction, input, chosen, rejected), d);
            && c.Keys == {InstructionKey, InputKey, ChosenKey, RejectedKey}
            && c[InstructionKey] == Text(instruction) && c[InputKey] == Text(input)
            && c[ChosenKey] == Text(chosen) && c[RejectedKey] == Text(rejected)
    ensures var c := SftToDpoPrompts(UpdateSftToDpoPrompts(p, rejected), d);
            c.Keys == {RejectedKey} && c[RejectedKey] == Text(rejected)
  {
  }

  /** A reset is the update with the default templates, and afterwards each
      getter returns what a manager without a configuration file returns. */
  lemma ResetIsUpdateWithDefaults(p: Prompts, d: Defaults)
    ensures ResetSftPrompts(p, d) == UpdateSftPrompts(p, d.instruction, d.input, d.output)
    ensures ResetDpoPrompts(p, d) == UpdateDpoPrompts(p, d.instruction, d.input, d.chosen, d.rejected)
    ensures ResetSftToDpoPrompts(p, d) == UpdateSftToDpoPrompts(p, d.rejected)
    ensures SftPrompts(ResetSftPrompts(p, d), d) == SftPrompts(LoadPrompts(NoConfigFile, d), d)
    ensures DpoPrompts(ResetDpoPrompts(p, d), d) == DpoPrompts(LoadPrompts(NoConfigFile, d), d)
    ensures SftToDpoPrompts(ResetSftToDpoPrompts(p, d), d) == SftToDpoPrompts(LoadPrompts(NoConfigFile, d), d)
  {
  }

  // ---------------------------------------------------------------------
  // A session of changes

  /** One call on the manager that changes it. */
  datatype Op =
    | AddOp(t: string, id: string, name: string, description: string, template: string)
    | UpdateOp(t: string, id: string, name: string, description: string, template: string)
    | DeleteOp(t: string, id: string)
    | UpdateSftOp(instruction: string, input: string, output: string)
    | ResetSftOp
    | UpdateDpoOp(instruction: string, input: string, chosen: string, rejected: string)
    | ResetDpoOp
    | UpdateSftToDpoOp(rejected: string)
    | ResetSftToDpoOp

  /** The manager: its prompts and what the configuration file holds. */
  datatype Manager = Manager(prompts: Prompts, file: ConfigFile)

  /** `PromptConfigManager()`: the prompts loaded from the file. */
  function Start(file: ConfigFile, d: Defaults): (m: Manager)
    ensures m.file == file && m.prompts.Keys == Managed
  {
    Manager(LoadPrompts(file, d), file)
  }

  /** The manager after a change: every change that reports success, and
      every per-type update or reset, writes the new state. */
  function Step(m: Manager, d: Defaults, op: Op): (r: Manager)
    ensures r.file == m.file || r.file == ConfigObject(r.prompts)
    ensures r.file == ConfigObject(r.prompts) || r == m
    ensures m.prompts.Keys <= r.prompts.Keys
    ensures !op.AddOp? ==> r.prompts.Keys <= m.prompts.Keys + Managed
    ensures op.AddOp? ==> r.prompts.Keys == m.prompts.Keys + {op.t}
  {
    var p := m.prompts;
    match op
    case AddOp(t, id, name, description, template) => Written(AddPrompt(p, t, id, name, description, template), m)
    case UpdateOp(t, id, name, description, template) =>
      Written(UpdatePrompt(p, t, id, name, description, template), m)
    case DeleteOp(t, id) => Written(DeletePrompt(p, t, id), m)
    case UpdateSftOp(instruction, input, output) => Saved(UpdateSftPrompts(p, instruction, input, output))
    case ResetSftOp => Saved(ResetSftPrompts(p, d))
    case UpdateDpoOp(instruction, input, chosen, rejected) => Saved(UpdateDpoPrompts(p, instruction, input, chosen, rejected))
    case ResetDpoOp => Saved(ResetDpoPrompts(p, d))
    case UpdateSftToDpoOp(rejected) => Saved(UpdateSftToDpoPrompts(p, rejected))
    case ResetSftToDpoOp => Saved(ResetSftToDpoPrompts(p, d))
  }

  /** The manager after `_save_prompts()`. */
  function Saved(p: Prompts): Manager {
    Manager(p, ConfigObject(p))
  }

  /** The manager after a `bool`-returning change. */
  function Written(c: Change, m: Manager): Manager {
    if c.saved then Saved(c.prompts) else Manager(c.prompts, m.file)
  }

  /** The calls in order. */
  function Run(m: Manager, d: Defaults, ops: seq<Op>): Manager
    decreases |ops|
  {
    if |ops| == 0 then m else Run(Step(m, d, ops[0]), d, ops[1..])
  }

  /** No call removes a prompt type. */
  lemma {:induction false} TypesNeverRemoved(m: Manager, d: Defaults, ops: seq<Op>)
    ensures m.prompts.Keys <= Run(m, d, ops).prompts.Keys
    decreases |ops|
  {
    if |ops| > 0 {
      TypesNeverRemoved(Step(m, d, ops[0]), d, ops[1..]);
    }
  }

  /** Only an add names `default`: without one for a type, no sequence of
      calls removes or changes that type's `default` entry. */
  lemma {:induction false} DefaultSurvives(m: Manager, d: Defaults, ops: seq<Op>, t: string)
    requires t !in Managed && DefaultId in CategoryOf(m.prompts, t)
    requires forall k :: 0 <= k < |ops| && (ops[k].AddOp? || ops[k].UpdateOp?) ==> ops[k].t != t
    ensures DefaultId in CategoryOf(Run(m, d, ops).prompts, t)
    ensures CategoryOf(Run(m, d, ops).prompts, t)[DefaultId] == m.prompts[t][DefaultId]
    decreases |ops|
  {
    if |ops| > 0 {
      var n := Step(m, d, ops[0]);
      assert DefaultId in CategoryOf(n.prompts, t) && n.prompts[t][DefaultId] == m.prompts[t][DefaultId];
      DefaultSurvives(n, d, ops[1..], t);
    }
  }

  /** Every call keeps the file and the state in step: loading the file
      gives the state, as long as no prompt is added under a type outside
      the built-in ones. */
  lemma {:induction false} ReloadGivesState(m: Manager, d: Defaults, ops: seq<Op>)
    requires m.prompts.Keys == Managed && LoadPrompts(m.file, d) == m.prompts
    requires forall k :: 0 <= k < |ops| && ops[k].AddOp? ==> ops[k].t in Managed
    ensures Run(m, d, ops).prompts.Keys == Managed
    ensures LoadPrompts(Run(m, d, ops).file, d) == Run(m, d, ops).prompts
    decreases |ops|
  {
    if |ops| > 0 {
      var n := Step(m, d, ops[0]);
      assert n.prompts.Keys == Managed;
      if n.file == ConfigObject(n.prompts) {
        LoadAfterSave(n.prompts, d);
      }
      ReloadGivesState(n, d, ops[1..]);
    }
  }

  /** Restarting the application restores every change made since it
      started, when prompts are added only under the built-in types. */
  lemma RestartRestores(file: ConfigFile, d: Defaults, ops: seq<Op>)
    requires forall k :: 0 <= k < |ops| && ops[k].AddOp? ==> ops[k].t in Managed
    ensures Start(Run(Start(file, d), d, ops).file, d).prompts == Run(Start(file, d), d, ops).prompts
  {
    ReloadGivesState(Start(file, d), d, ops);
  }

  /** A prompt added under any other type is written but lost on restart. */
  lemma AddedTypeLostOnRestart(m: Manager, d: Defaults, t: string, id: string, name: string, description: string,
                               template: string)
    requires t !in Managed
    ensures t in Step(m, d, AddOp(t, id, name, description, template)).prompts
    ensures t !in Start(Step(m, d, AddOp(t, id, name, description, template)).file, d).prompts
  {
  }
}
