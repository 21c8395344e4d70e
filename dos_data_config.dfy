/**
 * The Nancy application's `DataConfig.CreateConnection`: a left fold of
 * five "override if set" blocks over the default builder (`Connect()` is
 * not part of this model).
 */
module DosDataConfig {
  import opened RethinkConnection
  import Linq

  /** The `Blocks` iterator: one builder-to-builder step per setting, in order. */
  function Blocks(config: DataConfig): (blocks: seq<Builder -> Builder>)
    ensures |blocks| == |SettingOrder|
    ensures forall i, b :: 0 <= i < |blocks| ==> SameExcept(b, blocks[i](b), SettingOrder[i])
    ensures forall i, b :: 0 <= i < |blocks| ==>
      if Overrides(config, SettingOrder[i]) then Carries(config, blocks[i](b), SettingOrder[i]) else blocks[i](b) == b
  {
    [ (builder: Builder) => if config.hostname.None? then builder else builder.Hostname(config.hostname.value),
      (builder: Builder) => if config.port == 0 then builder else builder.Port(config.port),
      (builder: Builder) => if config.authKey.None? then builder else builder.AuthKey(config.authKey.value),
      (builder: Builder) => if config.database.None? then builder else builder.Db(config.database.value),
      (builder: Builder) => if config.timeout == 0 then builder else builder.Timeout(config.timeout) ]
  }

  function ApplyBlock(builder: Builder, block: Builder -> Builder): Builder
  {
    block(builder)
  }

  /** `Blocks.Aggregate(R.Connection(), (builder, block) => block(builder))`. */
  function CreateConnection(config: DataConfig): (b: Builder)
    ensures ConfiguredFrom(config, b)
  {
    var blocks := Blocks(config);
    Linq.AggregateAppend(blocks[..4], [blocks[4]], Connection(), ApplyBlock);
    Linq.AggregateAppend(blocks[..3], [blocks[3]], Connection(), ApplyBlock);
    Linq.AggregateAppend(blocks[..2], [blocks[2]], Connection(), ApplyBlock);
    Linq.AggregateAppend(blocks[..1], [blocks[1]], Connection(), ApplyBlock);
    assert blocks[..4] + [blocks[4]] == blocks;
    assert blocks[..3] + [blocks[3]] == blocks[..4];
    assert blocks[..2] + [blocks[2]] == blocks[..3];
    assert blocks[..1] + [blocks[1]] == blocks[..2];
    Linq.Aggregate(blocks, Connection(), ApplyBlock)
  }
}
